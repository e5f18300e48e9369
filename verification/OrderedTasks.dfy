/**
 Preparing tasks in dependency order (trinity/_utils/datastructures.py, OrderedTaskPreparation).

 Every task has one dependency and a set of prerequisites. A task becomes ready once all its
 prerequisites are finished and its dependency is ready; readiness then cascades to the tasks that
 were only waiting for it. Old ready tasks are pruned from the roots of the dependency forest.
 */
module OrderedTasks {
  import opened Collections
  import opened TreeRoots
  import opened TaskFacts

  class OrderedTaskPreparation {
    const prereqs: set<Prereq>
    const dependencyOf: TaskId -> TaskId
    const acceptDangling: bool
    const maxDepth: nat
    const roots: RootTracker

    /** The tracked tasks, with the prerequisites finished so far. */
    var tasks: map<TaskId, set<Prereq>>
    var unready: set<TaskId>
    var readyTasks: seq<TaskId>
    var declaredFinished: set<TaskId>
    var lastYielded: seq<TaskId>

    ghost var log: seq<Event>
    ghost var yielded: seq<TaskId>
    /** The tasks that were pruned while unready. */
    ghost var lost: set<TaskId>

    ghost function Now(): Facts
      reads this
    {
      Facts(tasks, unready, declaredFinished, prereqs, dependencyOf)
    }

    /** The tasks waiting for the consumer or in its hands. */
    ghost function Handed(): set<TaskId>
      reads this
    {
      Elements(readyTasks) + Elements(lastYielded)
    }

    /** The root tracker holds exactly the tracked tasks, under their dependencies. */
    ghost predicate Rooted()
      reads this`tasks, roots, roots.tree, roots.objects
    {
      && roots.Valid()
      && roots.tree.parents == (map t | t in tasks :: dependencyOf(t))
    }

    lemma RootedAcyclic()
      requires Rooted()
      ensures Acyclic(EdgesOf(tasks.Keys, dependencyOf), roots.rank)
    {
    }

    /** Dependencies must not go round in circles: some rank falls from every task to its dependency. */
    ghost predicate Grounded(t: TaskId)
    {
      roots.rank(dependencyOf(t)) < roots.rank(t)
    }

    ghost predicate Valid()
      reads this, roots, roots.tree, roots.objects
    {
      declaredFinished <= tasks.Keys && Recorded(Now(), log, yielded + readyTasks) && Rooted()
    }

    constructor (prereqs: set<Prereq>, dependencyOf: TaskId -> TaskId, acceptDangling: bool, maxDepth: nat,
                 ghost rank: TaskId -> nat)
      ensures Valid() && roots.rank == rank && fresh(roots) && fresh(roots.tree) && fresh(roots.objects)
      ensures this.prereqs == prereqs && this.dependencyOf == dependencyOf
      ensures this.acceptDangling == acceptDangling && this.maxDepth == maxDepth
      ensures tasks == map[] && unready == {} && readyTasks == [] && declaredFinished == {} && lastYielded == []
      ensures log == [] && yielded == [] && lost == {}
    {
      this.prereqs, this.dependencyOf := prereqs, dependencyOf;
      this.acceptDangling, this.maxDepth := acceptDangling, maxDepth;
      roots := new RootTracker(rank);
      tasks, unready, readyTasks, declaredFinished, lastYielded := map[], {}, [], {}, [];
      log, yielded, lost := [], [], {};
    }

    /** Hands one task to the consumer's queue and finds the tasks that were only waiting for it. */
    method MarkOneTaskComplete(t: TaskId) returns (next: seq<TaskId>)
      requires Valid() && t in tasks && t in unready && Now().Complete(t) && Now().DepReady(t)
      modifies this`unready, this`readyTasks, this`log
      ensures Valid()
      ensures unready == old(unready) - {t} && readyTasks == old(readyTasks) + [t] && log == old(log) + [Ready(t)]
      ensures NoDuplicates(next)
      ensures forall c :: c in next <==> c in tasks && dependencyOf(c) == t && c in unready && Now().Complete(c)
    {
      hide Recorded;
      hide RootTracker.Valid;
      RecordReady(Now(), log, yielded + readyTasks, t);
      assert yielded + readyTasks + [t] == yielded + (readyTasks + [t]);
      readyTasks := readyTasks + [t];
      unready := unready - {t};
      log := log + [Ready(t)];
      next := ReadyChildren(t);
    }

    method ReadyChildren(t: TaskId) returns (next: seq<TaskId>)
      requires Rooted()
      ensures NoDuplicates(next)
      ensures forall c :: c in next <==> c in tasks && dependencyOf(c) == t && c in unready && Now().Complete(c)
    {
      var kids := roots.tree.ChildrenOf(t);
      roots.tree.ChildrenAre(t);
      hide RootTracker.Valid;
      next := [];
      for i := 0 to |kids|
        invariant NoDuplicates(next)
        invariant forall c :: c in next <==> c in kids[..i] && c in tasks && tasks[c] == prereqs && c in unready
      {
        var c := kids[i];
        assert c in kids;
        assert kids[..i + 1] == kids[..i] + [c];
        assert c !in kids[..i];
        if tasks[c] == prereqs && c in unready {
          next := next + [c];
        }
      }
      assert kids[..|kids|] == kids;
    }

    /** The wave: everything that becomes ready because `t` did, level by level. */
    method MarkComplete(t: TaskId)
      requires Valid() && t in tasks && t in unready && Now().Complete(t) && Now().DepReady(t)
      modifies this`unready, this`readyTasks, this`log
      ensures Valid()
      ensures t !in unready && Moved(old(readyTasks), old(unready), readyTasks, unready, tasks.Keys)
      ensures unready == old(unready) - Due(old(Now()), t) && Cascades(old(unready), unready, dependencyOf, t)
      ensures old(log) <= log && Calls(log) == old(Calls(log))
      ensures old(Now().NoneStuckBut({t})) ==> Now().NoneStuckBut({})
      ensures Follows(old(Now()), old(Handed()), Now(), Handed())
    {
      hide Recorded, Follows, Pending, Moved, Calls, Cascading, Cascades, Due;
      hide OrderedTaskPreparation.Rooted;
      hide Facts.NoneStuckBut;
      FollowsRefl(Now(), Handed());
      PendingOne(Now(), t);
      CascadeStarts(Now(), t);
      NothingMoved(readyTasks, unready, tasks.Keys);
      var wave := [t];
      assert Elements(wave) == {t};
      while wave != []
        invariant wave == [] ==> Elements(wave) == {}
        invariant Valid() && Moved(old(readyTasks), old(unready), readyTasks, unready, tasks.Keys)
        invariant Cascading(old(Now()), unready, wave, t)
        invariant old(log) <= log && Calls(log) == old(Calls(log))
        invariant wave == [t] || t !in unready
        invariant Pending(Now(), wave, t)
        invariant old(Now().NoneStuckBut({t})) ==> Now().NoneStuckBut(Elements(wave))
        invariant Follows(old(Now()), old(Handed()), Now(), Handed())
        decreases unready
      {
        ghost var f, h, q, u := Now(), Handed(), readyTasks, unready;
        wave := MarkWave(wave, t, old(Now()));
        assert u + {} == u && old(unready) + {} == old(unready);
        MovedTwice(old(readyTasks), old(unready), q, u, tasks.Keys, {}, readyTasks, unready, tasks.Keys);
        FollowsTrans(old(Now()), old(Handed()), f, h, Now(), Handed());
      }
      CascadeEnds(old(Now()), unready, t);
    }

    method MarkWave(wave: seq<TaskId>, ghost first: TaskId, ghost start: Facts) returns (next: seq<TaskId>)
      requires Valid() && wave != [] && Pending(Now(), wave, first)
      requires wave == [first] || first !in unready
      requires Cascading(start, unready, wave, first) && Now() == start.(unready := unready)
      modifies this`unready, this`readyTasks, this`log
      ensures Valid() && unready < old(unready) && first !in unready
      ensures Moved(old(readyTasks), old(unready), readyTasks, unready, tasks.Keys)
      ensures old(log) <= log && Calls(log) == old(Calls(log))
      ensures Pending(Now(), next, first)
      ensures Cascading(start, unready, next, first)
      ensures old(Now().NoneStuckBut(Elements(wave))) ==> Now().NoneStuckBut(Elements(next))
      ensures Follows(old(Now()), old(Handed()), Now(), Handed())
    {
      hide Recorded, Pending, Follows, Moved, Calls, Cascading;
      hide OrderedTaskPreparation.Rooted;
      hide Facts.NoneStuckBut;
      FollowsRefl(Now(), Handed());
      NothingMoved(readyTasks, unready, tasks.Keys);
      next := [];
      assert wave[0..] + next == wave;
      for i := 0 to |wave|
        invariant Valid() && unready <= old(unready) && (i > 0 ==> unready < old(unready) && first !in unready)
        invariant Moved(old(readyTasks), old(unready), readyTasks, unready, tasks.Keys)
        invariant old(log) <= log && Calls(log) == old(Calls(log))
        invariant i == 0 ==> next == []
        invariant Cascading(start, unready, wave[i..] + next, first)
        invariant Pending(Now(), wave[i..] + next, first)
        invariant old(Now().NoneStuckBut(Elements(wave))) ==> Now().NoneStuckBut(Elements(wave[i..] + next))
        invariant Follows(old(Now()), old(Handed()), Now(), Handed())
      {
        ghost var f, p := Now(), wave[i..] + next;
        var x := wave[i];
        assert p[0] == x;
        PendingHead(f, p, first);
        ghost var handed := Handed();
        CallsAppend(log, Ready(x));
        OneMoved(readyTasks, unready, x, tasks.Keys);
        assert unready + {} == unready && old(unready) + {} == old(unready);
        MovedTwice(old(readyTasks), old(unready), readyTasks, unready, tasks.Keys, {}, readyTasks + [x],
                   unready - {x}, tasks.Keys);
        var more := MarkOneTaskComplete(x);
        Advance(f, p, first, more, handed);
        CascadeOne(start, f.unready, p, first, more);
        assert Handed() == handed + {x};
        FollowsTrans(old(Now()), old(Handed()), f, handed, Now(), Handed());
        assert p[1..] + more == wave[i + 1..] + (next + more);
        next := next + more;
      }
      assert wave[|wave|..] + next == next;
    }

    /** Starts tracking a task, here and in the root tracker. */
    method Track(t: TaskId, finished: set<Prereq>)
      requires Rooted() && t !in tasks && Grounded(t)
      modifies this`tasks, roots, roots.tree, roots.objects
      ensures Rooted() && fresh(roots.objects - old(roots.objects))
      ensures tasks == old(tasks)[t := finished]
    {
      hide RootTracker.Valid;
      tasks := tasks[t := finished];
      var _ := roots.Add(t, dependencyOf(t));
    }

    /** Tracks a task as finished from the start; its readiness is not announced. */
    method SetFinishedDependency(t: TaskId) returns (err: TaskError)
      requires Valid() && Grounded(t)
      modifies this`tasks, this`declaredFinished, this`log, roots, roots.tree, roots.objects
      ensures Valid() && fresh(roots.objects - old(roots.objects))
      ensures err == if t in old(tasks) then DuplicateTasks else NoError
      ensures err != NoError ==> tasks == old(tasks) && declaredFinished == old(declaredFinished) && log == old(log)
      ensures err == NoError ==> tasks == old(tasks)[t := prereqs] && declaredFinished == old(declaredFinished) + {t}
      ensures err == NoError ==> log == old(log) + [Declared(t)] && Calls(log) == old(Calls(log)) + [Declared(t)]
      ensures err == NoError && old(Now().Settled()) ==>
                (Now().Settled() <==> !exists c :: c in unready && old(Now()).Complete(c) && dependencyOf(c) == t)
      ensures err == NoError && old(Now().Closed() && !(dependencyOf(t) in tasks && dependencyOf(t) in unready)) ==>
                Now().Closed() && (old(Now().Disciplined(Handed())) ==> Now().Disciplined(Handed()))
      ensures StillStuck(old(Now()), Now())
    {
      hide Recorded, Calls;
      hide OrderedTaskPreparation.Rooted;
      hide Facts.Settled;
      hide Facts.Closed;
      hide Facts.Disciplined;
      if t in tasks {
        return DuplicateTasks;
      }
      RecordDeclared(Now(), log, yielded + readyTasks, t);
      CallsAppend(log, Declared(t));
      DeclareKeepsStuck(Now(), t);
      if Now().Settled() {
        DeclareKeepsSettled(Now(), t);
      }
      if Now().Closed() && !(dependencyOf(t) in tasks && dependencyOf(t) in unready) {
        DeclareKeepsDiscipline(Now(), Handed(), t);
      }
      Track(t, prereqs);
      declaredFinished := declaredFinished + {t};
      log := log + [Declared(t)];
      assert Now() == old(Now()).(done := old(tasks)[t := prereqs], declared := old(declaredFinished) + {t});
      return NoError;
    }

    /** The source's `_is_ready`. */
    predicate IsReady(t: TaskId)
      reads this
    {
      dependencyOf(t) in declaredFinished || (dependencyOf(t) in tasks && dependencyOf(t) !in unready)
    }

    /** Starts tracking one new task; without prerequisites it may become ready at once. */
    method RegisterOne(t: TaskId) returns (err: TaskError)
      requires Valid() && t !in tasks && Grounded(t)
      modifies this`tasks, this`unready, this`readyTasks, this`log, roots, roots.tree, roots.objects
      ensures Valid() && fresh(roots.objects - old(roots.objects))
      ensures err == if !acceptDangling && dependencyOf(t) !in old(tasks) then MissingDependency else NoError
      ensures tasks == if err == NoError then old(tasks)[t := {}] else old(tasks)
      ensures err != NoError ==> unready == old(unready) && readyTasks == old(readyTasks) && log == old(log)
      ensures err == NoError ==> Moved(old(readyTasks), old(unready) + {t}, readyTasks, unready, tasks.Keys)
      ensures err == NoError && prereqs != {} ==> unready == old(unready) + {t} && readyTasks == old(readyTasks)
      ensures Calls(log) == old(Calls(log)) + (if err == NoError then [Registered(t)] else [])
      ensures old(log) <= log
      ensures old(Now().NoneStuckBut({})) ==> Now().NoneStuckBut({})
      ensures err == NoError ==> Registers(old(Now()), old(Handed()), Now(), Handed(), {t})
      ensures StillStuck(old(Now()), Now())
      ensures err == NoError ==> Now() == RegisteredOne(old(Now()), t)
    {
      hide Recorded, Registers, Follows, Moved, Calls, Cascades, Due;
      hide OrderedTaskPreparation.Rooted;
      hide Facts.NoneStuckBut;
      if !acceptDangling && dependencyOf(t) !in tasks {
        return MissingDependency;
      }
      RecordRegistered(Now(), log, yielded + readyTasks, t);
      RegisterFacts(Now(), Handed(), t);
      CallsAppend(log, Registered(t));
      log := log + [Registered(t)];
      unready := unready + {t};
      Track(t, {});
      ghost var f := old(Now()).(done := old(tasks)[t := {}], unready := old(unready) + {t});
      assert Now() == f && Handed() == old(Handed());
      NothingMoved(readyTasks, unready, tasks.Keys);
      if prereqs == {} && IsReady(t) {
        MarkComplete(t);
        RegistersThenFollows(old(Now()), old(Handed()), f, old(Handed()), Now(), Handed(), t);
        MovedShrinks(old(readyTasks), f.unready, readyTasks, unready, tasks.Keys);
      }
      RegisterKeepsStuck(old(Now()), Now(), t);
      return NoError;
    }

    /** Why finishing a prerequisite is refused, if it is. */
    function Refusal(prereq: Prereq, t: TaskId): TaskError
      reads this
    {
      if t !in tasks then UnknownTask
      else if t !in unready then AlreadyComplete
      else if prereq !in prereqs then UnknownPrereq
      else if prereq in tasks[t] then PrereqDone
      else NoError
    }

    /** Records one finished prerequisite; the last one may make the task ready. */
    method FinishOne(prereq: Prereq, t: TaskId) returns (err: TaskError)
      requires Valid()
      modifies this`tasks, this`unready, this`readyTasks, this`log
      ensures Valid()
      ensures err == old(Refusal(prereq, t))
      ensures tasks == if err == NoError then old(tasks)[t := old(tasks)[t] + {prereq}] else old(tasks)
      ensures tasks.Keys == old(tasks.Keys) && (err != NoError ==> unready == old(unready))
      ensures Moved(old(readyTasks), old(unready), readyTasks, unready, tasks.Keys)
      ensures old(log) <= log && Calls(log) == old(Calls(log))
      ensures old(Now().NoneStuckBut({})) ==> Now().NoneStuckBut({})
      ensures Follows(old(Now()), old(Handed()), Now(), Handed()) && StillStuck(old(Now()), Now())
      ensures err == NoError ==> Now() == FinishedOne(old(Now()), prereq, t)
    {
      hide Recorded, Follows, Moved, Calls, Due;
      hide OrderedTaskPreparation.Rooted;
      hide Facts.NoneStuckBut;
      FollowsRefl(Now(), Handed());
      NothingMoved(readyTasks, unready, tasks.Keys);
      if t !in tasks {
        return UnknownTask;
      } else if t !in unready {
        return AlreadyComplete;
      } else if prereq !in prereqs {
        return UnknownPrereq;
      } else if prereq in tasks[t] {
        return PrereqDone;
      }
      FinishFacts(Now(), log, yielded + readyTasks, Handed(), t, prereq);
      SetDone(t, tasks[t] + {prereq});
      if tasks[t] == prereqs && IsReady(t) {
        ghost var f := Now();
        MarkComplete(t);
        FollowsTrans(old(Now()), old(Handed()), f, old(Handed()), Now(), Handed());
        MovedShrinks(old(readyTasks), old(unready), readyTasks, unready, tasks.Keys);
      }
      FinishKeepsStuck(old(Now()), Now(), t, prereq);
      return NoError;
    }

    method SetDone(t: TaskId, finished: set<Prereq>)
      requires Rooted() && t in tasks
      modifies this`tasks
      ensures Rooted() && tasks == old(tasks)[t := finished] && tasks.Keys == old(tasks.Keys)
    {
      hide RootTracker.Valid;
      tasks := tasks[t := finished];
    }

    /**
     Registers the new tasks among `ts`, in order. A missing dependency stops the call, keeping
     what was registered before it.
     */
    method RegisterTasks(ts: seq<TaskId>, ignoreDuplicates: bool) returns (err: TaskError, registered: seq<TaskId>)
      requires Valid() && forall t :: t in ts ==> Grounded(t)
      modifies this`tasks, this`unready, this`readyTasks, this`log, roots, roots.tree, roots.objects
      ensures Valid() && fresh(roots.objects - old(roots.objects))
      ensures err == RepeatedInCall <==> !ignoreDuplicates && !NoDuplicates(ts)
      ensures err == DuplicateTasks <==> !ignoreDuplicates && NoDuplicates(ts) && exists t :: t in ts && t in old(tasks)
      ensures err == RepeatedInCall || err == DuplicateTasks ==>
                registered == [] && unready == old(unready) && log == old(log)
      ensures err == NoError || err == MissingDependency ==>
                RegistersAsFarAs(FirstNew(ts, old(tasks.Keys)), registered, old(tasks.Keys))
      ensures err.RepeatedInCall? || err.DuplicateTasks? || err ==
                if registered == FirstNew(ts, old(tasks.Keys)) then NoError else MissingDependency
      ensures Now() == RegisteredAll(old(Now()), registered) && tasks == WithNew(old(tasks), registered)
      ensures Calls(log) == old(Calls(log)) + Registrations(registered)
      ensures Moved(old(readyTasks), old(unready) + Elements(registered), readyTasks, unready, tasks.Keys)
      ensures prereqs != {} ==> unready == old(unready) + Elements(registered) && readyTasks == old(readyTasks)
      ensures old(Now().Settled()) ==> Now().Settled()
      ensures old(Now().NoneStuckBut({})) ==> Now().NoneStuckBut({})
      ensures old(Now().Closed() && forall t :: t in ts && t !in tasks ==> Now().NoReadyChild(t)) ==> Now().Closed()
      ensures old(Now().Disciplined(Handed()) && forall t :: t in ts && t !in tasks ==>
                Now().MayRegister(t, Handed())) ==>
                Now().Disciplined(Handed())
      ensures StillStuck(old(Now()), Now())
    {
      hide Recorded, Registers, WithNew, Registrations, RegisteredAll, FirstNew, Calls, Moved;
      hide OrderedTaskPreparation.Rooted;
      hide AsFarAs;
      hide Facts.NoneStuckBut;
      hide Facts.NoneEarly;
      hide Facts.Closed;
      hide Facts.Disciplined;
      hide Facts.NoReadyChild;
      hide Facts.MayRegister;
      registered := [];
      RegisteredNone(Now());
      WithNewStep(tasks, registered, 0);
      EmptyElements<TaskId>();
      NothingMoved(readyTasks, unready, tasks.Keys);
      assert unready + {} == unready;
      NoRegistrations();
      FirstNewSpec(ts, tasks.Keys);
      var added, repeated, duplicates := SplitFresh(ts, tasks.Keys);
      if repeated && !ignoreDuplicates {
        return RepeatedInCall, registered;
      } else if duplicates && !ignoreDuplicates {
        return DuplicateTasks, registered;
      }
      err, registered := RegisterAll(added);
      RegistersKeeps(old(Now()), old(Handed()), Now(), Handed(), registered, added, ts);
    }

    ghost predicate RegistersAsFarAs(added: seq<TaskId>, registered: seq<TaskId>, known: set<TaskId>)
    {
      AsFarAs(acceptDangling, dependencyOf, added, registered, known)
    }

    lemma RegisteredAreNew(added: seq<TaskId>, registered: seq<TaskId>, known: set<TaskId>)
      requires RegistersAsFarAs(added, registered, known) || registered == []
      ensures registered <= added
    {
    }

    ghost function Stands(): Standing
      reads this
    {
      Standing(Now(), Handed(), readyTasks, Calls(log))
    }

    method RegisterAll(added: seq<TaskId>) returns (err: TaskError, registered: seq<TaskId>)
      requires Valid() && NoDuplicates(added) && forall t :: t in added ==> t !in tasks && Grounded(t)
      modifies this`tasks, this`unready, this`readyTasks, this`log, roots, roots.tree, roots.objects
      ensures Valid() && fresh(roots.objects - old(roots.objects))
      ensures RegistersAsFarAs(added, registered, old(tasks.Keys)) && registered <= added
      ensures err == if registered == added then NoError else MissingDependency
      ensures Enrolled(old(Stands()), Stands(), registered)
    {
      hide Recorded, AsFarAs, Enrolled, WithNew, Calls;
      hide OrderedTaskPreparation.Rooted;
      registered := [];
      err := NoError;
      NothingEnrolled(Stands());
      WithNewStep(tasks, registered, 0);
      RegistersMore(added, registered, tasks.Keys, tasks.Keys);
      while |registered| < |added|
        invariant Valid() && fresh(roots.objects - old(roots.objects))
        invariant registered <= added && err == NoError && tasks == WithNew(old(tasks), registered)
        invariant RegistersAsFarAs(registered, registered, old(tasks.Keys))
        invariant Enrolled(old(Stands()), Stands(), registered)
        decreases |added| - |registered|
      {
        var t := added[|registered|];
        assert t in added && t !in registered;
        WithNewKeys(old(tasks), registered);
        RegistersMore(added, registered, old(tasks.Keys), tasks.Keys);
        ghost var before := Stands();
        err := RegisterNext(t);
        if err != NoError {
          return;
        }
        WithNewStep(old(tasks), registered, t);
        EnrollMore(old(Stands()), before, Stands(), registered, t);
        PrefixMore(registered, added);
        registered := registered + [t];
      }
      WholePrefix(registered, added);
    }

    method RegisterNext(t: TaskId) returns (err: TaskError)
      requires Valid() && t !in tasks && Grounded(t)
      modifies this`tasks, this`unready, this`readyTasks, this`log, roots, roots.tree, roots.objects
      ensures Valid() && fresh(roots.objects - old(roots.objects))
      ensures err == if !acceptDangling && dependencyOf(t) !in old(tasks) then MissingDependency else NoError
      ensures err == NoError ==> tasks == old(tasks)[t := {}] && Enrolled(old(Stands()), Stands(), [t])
      ensures err != NoError ==> tasks == old(tasks) && Stands() == old(Stands())
    {
      hide Recorded, Registers, Moved, Calls, StillStuck, RegisteredOne;
      hide OrderedTaskPreparation.Rooted;
      hide Facts.NoneStuckBut;
      err := RegisterOne(t);
      if err == NoError {
        OneEnrolled(old(Stands()), Stands(), t);
      }
    }

    lemma RegistersMore(added: seq<TaskId>, registered: seq<TaskId>, known: set<TaskId>, now: set<TaskId>)
      requires registered <= added && (registered == [] || RegistersAsFarAs(registered, registered, known))
      requires forall t :: t in now <==> t in known || t in registered
      ensures RegistersAsFarAs(registered, registered, known)
      ensures registered < added ==>
                var t := added[|registered|];
                && (!acceptDangling && dependencyOf(t) !in now ==> RegistersAsFarAs(added, registered, known))
                && (acceptDangling || dependencyOf(t) in now ==>
                      RegistersAsFarAs(registered + [t], registered + [t], known))
    {
      if registered < added {
        var t := added[|registered|];
        var more, dep := registered + [t], dependencyOf(t);
        assert dep in now <==> dep in known || dep in registered;
        if acceptDangling || dep in now {
          forall i | 0 <= i < |more| && !acceptDangling
            ensures dependencyOf(more[i]) in known || dependencyOf(more[i]) in more[..i]
          {
            assert more[..i] == registered[..i];
            assert registered[..|registered|] == registered;
            assert i < |registered| ==> more[i] == registered[i];
          }
        }
      }
    }

    /** Finishes one prerequisite of each task, in order, stopping at the first refusal. */
    method FinishPrereq(prereq: Prereq, ts: seq<TaskId>) returns (err: TaskError, finished: nat)
      requires Valid()
      modifies this`tasks, this`unready, this`readyTasks, this`log
      ensures Valid()
      ensures finished <= |ts| && Now() == FinishedAll(old(Now()), prereq, ts[..finished])
      ensures err == if old(tasks) == map[] then NothingRegistered
                     else if finished == |ts| then NoError else Refusal(prereq, ts[finished])
      ensures err == NothingRegistered ==> finished == 0
      ensures finished < |ts| ==> err != NoError
      ensures Moved(old(readyTasks), old(unready), readyTasks, unready, tasks.Keys) && Calls(log) == old(Calls(log))
      ensures old(Now().Settled()) ==> Now().Settled()
      ensures old(Now().NoneStuckBut({})) ==> Now().NoneStuckBut({})
      ensures old(Now().Closed()) ==> Now().Closed()
      ensures old(Now().Disciplined(Handed())) ==> Now().Disciplined(Handed())
      ensures StillStuck(old(Now()), Now())
    {
      hide Recorded, Moved, Calls, Follows, FinishedAll, FinishedOne, StillStuck;
      hide OrderedTaskPreparation.Rooted;
      hide Facts.NoneStuckBut;
      hide Facts.NoneEarly;
      hide Facts.Closed;
      hide Facts.Disciplined;
      SameStuck(Now());
      NothingMoved(readyTasks, unready, tasks.Keys);
      FinishedStep(Now(), prereq, ts, 0);
      if tasks == map[] {
        return NothingRegistered, 0;
      }
      err, finished := FinishAll(prereq, ts);
      FollowsKeeps(old(Now()), old(Handed()), Now(), Handed());
    }

    method FinishAll(prereq: Prereq, ts: seq<TaskId>) returns (err: TaskError, finished: nat)
      requires Valid()
      modifies this`tasks, this`unready, this`readyTasks, this`log
      ensures Valid()
      ensures finished <= |ts| && Now() == FinishedAll(old(Now()), prereq, ts[..finished])
      ensures err == if finished == |ts| then NoError else Refusal(prereq, ts[finished])
      ensures finished < |ts| ==> err != NoError
      ensures Moved(old(readyTasks), old(unready), readyTasks, unready, tasks.Keys) && Calls(log) == old(Calls(log))
      ensures old(Now().NoneStuckBut({})) ==> Now().NoneStuckBut({})
      ensures Follows(old(Now()), old(Handed()), Now(), Handed()) && StillStuck(old(Now()), Now())
    {
      hide Recorded, Moved, Calls, Follows, FinishedAll, FinishedOne, StillStuck;
      hide OrderedTaskPreparation.Rooted;
      hide Facts.NoneStuckBut;
      FollowsRefl(Now(), Handed());
      SameStuck(Now());
      NothingMoved(readyTasks, unready, tasks.Keys);
      FinishedStep(Now(), prereq, ts, 0);
      finished, err := 0, NoError;
      while finished < |ts|
        invariant Valid() && finished <= |ts| && err == NoError && tasks.Keys == old(tasks.Keys)
        invariant Moved(old(readyTasks), old(unready), readyTasks, unready, tasks.Keys) && Calls(log) == old(Calls(log))
        invariant Now() == FinishedAll(old(Now()), prereq, ts[..finished])
        invariant old(Now().NoneStuckBut({})) ==> Now().NoneStuckBut({})
        invariant Follows(old(Now()), old(Handed()), Now(), Handed()) && StillStuck(old(Now()), Now())
      {
        ghost var f, h, q, u := Now(), Handed(), readyTasks, unready;
        FinishedStep(old(Now()), prereq, ts, finished);
        err := FinishOne(prereq, ts[finished]);
        assert u + {} == u && old(unready) + {} == old(unready);
        MovedTwice(old(readyTasks), old(unready), q, u, tasks.Keys, {}, readyTasks, unready, tasks.Keys);
        StillStuckTrans(old(Now()), f, Now());
        FollowsTrans(old(Now()), old(Handed()), f, h, Now(), Handed());
        if err != NoError {
          return;
        }
        finished := finished + 1;
      }
    }

    /** Prunes the root of the tree of `t` when it is more than maxDepth above `t`. */
    method PruneFinished(t: TaskId) returns (err: TaskError)
      requires Valid()
      modifies this`tasks, this`declaredFinished, this`lost, roots, roots.tree, roots.objects
      ensures Valid() && roots.objects == old(roots.objects) && err == NoError
      ensures tasks == old(tasks) - Cut(old(tasks.Keys), dependencyOf, t, maxDepth)
      ensures declaredFinished == old(declaredFinished) * tasks.Keys
      ensures lost == old(lost) + (old(tasks.Keys) - tasks.Keys) * unready
      ensures old(Now().NoneStuckBut({})) ==> Now().NoneStuckBut({})
      ensures old(Now().Disciplined(Handed())) && t in Handed() ==>
                Now().Disciplined(Handed()) && old(tasks.Keys) - tasks.Keys !! unready
    {
      hide Recorded;
      hide RootTracker.Valid;
      ghost var cut := Cut(tasks.Keys, dependencyOf, t, maxDepth);
      if t !in tasks {
        return NoError;
      }
      assert EdgesOf(tasks.Keys, dependencyOf) == roots.tree.parents;
      var res, root, depth := roots.GetRoot(t);
      if res != Ok {
        return Unexpected;
      }
      CutIs(tasks.Keys, dependencyOf, t, maxDepth, root, depth);
      if depth - maxDepth <= 0 {
        return NoError;
      }
      if Now().Disciplined(Handed()) && t in Handed() {
        ReadyUpwards(Now(), t, depth);
      }
      err := PruneRoot(root);
    }

    /** Drops a root of the dependency forest from every record but the unready set. */
    method PruneRoot(root: TaskId) returns (err: TaskError)
      requires Valid() && root in tasks && dependencyOf(root) !in tasks
      modifies this`tasks, this`declaredFinished, this`lost, roots, roots.tree, roots.objects
      ensures Valid() && roots.objects == old(roots.objects) && err == NoError
      ensures tasks == old(tasks) - {root} && declaredFinished == old(declaredFinished) - {root}
      ensures lost == old(lost) + {root} * unready
      ensures old(Now().NoneStuckBut({})) ==> Now().NoneStuckBut({})
      ensures old(Now().Disciplined(Handed())) && root !in unready ==> Now().Disciplined(Handed())
    {
      hide Recorded;
      hide RootTracker.Valid;
      RecordPruned(Now(), log, yielded + readyTasks, Handed(), root);
      tasks := tasks - {root};
      declaredFinished := declaredFinished - {root};
      lost := lost + {root} * unready;
      var res := roots.Prune(root);
      if res != Ok {
        return Unexpected;
      }
      return NoError;
    }

    /** Attempts pruning from t twice. */
    method PruneTwice(t: TaskId) returns (err: TaskError)
      requires Valid()
      modifies this`tasks, this`declaredFinished, this`lost, roots, roots.tree, roots.objects
      ensures Valid() && roots.objects == old(roots.objects) && err == NoError
      ensures tasks == old(tasks) - CutTimes(old(tasks.Keys), dependencyOf, t, maxDepth, 2)
      ensures declaredFinished == old(declaredFinished) * tasks.Keys
      ensures lost == old(lost) + (old(tasks.Keys) - tasks.Keys) * unready
      ensures old(Now().NoneStuckBut({})) ==> Now().NoneStuckBut({})
      ensures old(Now().Disciplined(Handed())) && t in Handed() ==>
                Now().Disciplined(Handed()) && old(tasks.Keys) - tasks.Keys !! unready
    {
      hide Recorded, Cut, CutTimes;
      hide OrderedTaskPreparation.Rooted;
      hide Facts.NoneStuckBut;
      hide Facts.Disciplined;
      ghost var first := Cut(tasks.Keys, dependencyOf, t, maxDepth);
      CutTwice(tasks.Keys, dependencyOf, t, maxDepth);
      MapLess(tasks, first, Cut(tasks.Keys - first, dependencyOf, t, maxDepth));
      err := PruneFinished(t);
      if err == NoError {
        err := PruneFinished(t);
      }
    }

    /** What ready_tasks() does before it waits: prune twice for each task of the batch handed out last. */
    method BeginReadyTasks() returns (err: TaskError)
      requires Valid()
      modifies this`tasks, this`declaredFinished, this`lost, roots, roots.tree, roots.objects
      ensures Valid() && roots.objects == old(roots.objects) && err == NoError
      ensures tasks == old(tasks) - CutAll(old(tasks.Keys), dependencyOf, lastYielded, maxDepth)
      ensures declaredFinished == old(declaredFinished) * tasks.Keys
      ensures lost == old(lost) + (old(tasks.Keys) - tasks.Keys) * unready
      ensures old(Now().Closed()) ==>
                (old(tasks.Keys) - tasks.Keys !! unready <==> old(BatchSpares(Now(), lastYielded, maxDepth)))
      ensures old(Now().NoneStuckBut({})) ==> Now().NoneStuckBut({})
      ensures old(Now().Disciplined(Handed())) ==>
                Now().Disciplined(Handed()) && old(tasks.Keys) - tasks.Keys !! unready
    {
      hide Recorded, CutAll, BatchSpares;
      hide OrderedTaskPreparation.Rooted;
      hide Facts.NoneStuckBut;
      hide Facts.Closed;
      hide Facts.Disciplined;
      RootedAcyclic();
      if Now().Closed() {
        BatchSparesIff(Now(), lastYielded, maxDepth, roots.rank);
      }
      CutAllWithin(tasks.Keys, dependencyOf, lastYielded, maxDepth);
      err := PruneBatch();
      assert old(tasks.Keys) - tasks.Keys == CutAll(old(tasks.Keys), dependencyOf, lastYielded, maxDepth);
    }

    method PruneBatch() returns (err: TaskError)
      requires Valid()
      modifies this`tasks, this`declaredFinished, this`lost, roots, roots.tree, roots.objects
      ensures Valid() && roots.objects == old(roots.objects) && err == NoError
      ensures tasks == old(tasks) - CutAll(old(tasks.Keys), dependencyOf, lastYielded, maxDepth)
      ensures declaredFinished == old(declaredFinished) * tasks.Keys
      ensures lost == old(lost) + (old(tasks.Keys) - tasks.Keys) * unready
      ensures old(Now().NoneStuckBut({})) ==> Now().NoneStuckBut({})
      ensures old(Now().Disciplined(Handed())) ==>
                Now().Disciplined(Handed()) && old(tasks.Keys) - tasks.Keys !! unready
    {
      hide Recorded, CutTimes, CutAll;
      hide OrderedTaskPreparation.Rooted;
      hide Facts.NoneStuckBut;
      hide Facts.Disciplined;
      CutAllNext(tasks.Keys, dependencyOf, [], 0, maxDepth);
      for i := 0 to |lastYielded|
        invariant Valid() && roots.objects == old(roots.objects)
        invariant tasks == old(tasks) - CutAll(old(tasks.Keys), dependencyOf, lastYielded[..i], maxDepth)
        invariant declaredFinished == old(declaredFinished) * tasks.Keys
        invariant lost == old(lost) + (old(tasks.Keys) - tasks.Keys) * unready
        invariant old(Now().NoneStuckBut({})) ==> Now().NoneStuckBut({})
        invariant old(Now().Disciplined(Handed())) ==>
                    Now().Disciplined(Handed()) && old(tasks.Keys) - tasks.Keys !! unready
      {
        var t := lastYielded[i];
        assert t in Handed();
        CutAllNext(old(tasks.Keys), dependencyOf, lastYielded[..i], t, maxDepth);
        assert lastYielded[..i + 1] == lastYielded[..i] + [t];
        ghost var before := CutAll(old(tasks.Keys), dependencyOf, lastYielded[..i], maxDepth);
        MapLess(old(tasks), before, CutTimes(tasks.Keys, dependencyOf, t, maxDepth, 2));
        err := PruneTwice(t);
        if err != NoError {
          return;
        }
      }
      assert lastYielded[..|lastYielded|] == lastYielded;
      return NoError;
    }

    /**
     What ready_tasks() does next: refuse an empty request, wait while the queue is empty, and else
     take a batch from its front.
     */
    method TakeReadyTasks(maxResults: Option<int>) returns (res: TakeResult, batch: seq<TaskId>)
      requires Valid()
      modifies this`readyTasks, this`lastYielded, this`yielded
      ensures Valid()
      ensures res == if maxResults.Some? && maxResults.value < 1 then NoneRequested
                     else if old(readyTasks) == [] then Waits else Taken
      ensures res == Taken ==>
                batch + readyTasks == old(readyTasks) && yielded == old(yielded) + batch && lastYielded == batch
      ensures res == Taken ==>
                |batch| == if maxResults.None? || maxResults.value > |old(readyTasks)| then |old(readyTasks)|
                           else maxResults.value
      ensures res != Taken ==> batch == [] && readyTasks == old(readyTasks)
      ensures res != Taken ==> yielded == old(yielded) && lastYielded == old(lastYielded)
      ensures Handed() <= old(Handed())
    {
      hide Recorded, Elements;
      hide OrderedTaskPreparation.Rooted;
      if maxResults.Some? && maxResults.value < 1 {
        return NoneRequested, [];
      } else if readyTasks == [] {
        return Waits, [];
      }
      var n := if maxResults.None? || maxResults.value > |readyTasks| then |readyTasks| else maxResults.value;
      batch := readyTasks[..n];
      readyTasks := readyTasks[n..];
      lastYielded := batch;
      yielded := yielded + batch;
      assert old(readyTasks) == batch + readyTasks;
      ElementsConcat(batch, readyTasks);
      assert old(yielded) + old(readyTasks) == yielded + readyTasks;
      return Taken, batch;
    }

    /** The consumer receives every task after its dependency, unless that was declared finished. */
    lemma YieldedInOrder(i: nat)
      requires Valid() && i < |yielded|
      ensures dependencyOf(yielded[i]) in yielded[..i] || Declared(dependencyOf(yielded[i])) in log
    {
      OutputInOrder(log, dependencyOf, i);
      var out := yielded + readyTasks;
      assert out[..i] == yielded[..i];
    }
  }

  /** The tasks that are not known yet, each once; was any task listed twice, was any known? */
  method SplitFresh(ts: seq<TaskId>, known: set<TaskId>) returns (added: seq<TaskId>, repeated: bool, clash: bool)
    ensures added == FirstNew(ts, known)
    ensures repeated <==> !NoDuplicates(ts)
    ensures clash <==> exists t :: t in ts && t in known
  {
    added, repeated, clash := [], false, false;
    for i := 0 to |ts|
      invariant added == FirstNew(ts[..i], known)
      invariant repeated <==> !NoDuplicates(ts[..i])
      invariant clash <==> exists t :: t in ts[..i] && t in known
    {
      var t := ts[i];
      assert ts[..i + 1] == ts[..i] + [t];
      assert NoDuplicates(ts[..i + 1]) <==> NoDuplicates(ts[..i]) && t !in ts[..i];
      if t in ts[..i] {
        repeated := true;
      } else if t !in known {
        added := added + [t];
      }
      if t in known {
        clash := true;
      }
    }
    assert ts[..|ts|] == ts;
  }
}

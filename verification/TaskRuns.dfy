/**
 Whole runs of OrderedTaskPreparation (trinity/_utils/datastructures.py): any sequence of calls,
 refused ones, pruning and repeated registration included.
 */
module TaskRuns {
  import opened Collections
  import opened TreeRoots
  import opened TaskFacts
  import opened OrderedTasks

  /** What a caller may do. A call of ready_tasks() is BeginReady, which prunes, and then TakeReady. */
  datatype Command =
    | Declare(t: TaskId)
    | Register(ts: seq<TaskId>, ignoreDuplicates: bool)
    | Finish(prereq: Prereq, ts: seq<TaskId>)
    | BeginReady
    | TakeReady(maxResults: Option<int>)
  {
    /** The tasks the command starts to track. */
    ghost function Names(): set<TaskId>
    {
      match this
      case Declare(t) => {t}
      case Register(ts, _) => Elements(ts)
      case _ => {}
    }

    ghost predicate Registers(t: TaskId)
    {
      Register? && t in ts
    }
  }

  // -------------------------------------------------------------------------------------------
  // What a run does, as a sequence of states
  // -------------------------------------------------------------------------------------------

  /** The facts, the queue, the batch handed out last, and the tasks pruned while unready. */
  datatype State = State(facts: Facts, queue: seq<TaskId>, last: seq<TaskId>, lost: set<TaskId>)
  {
    ghost function Handed(): set<TaskId>
    {
      Elements(queue) + Elements(last)
    }
  }

  ghost function ConfigOf(otp: OrderedTaskPreparation): Config
  {
    Config(otp.acceptDangling, otp.maxDepth)
  }

  ghost function StateOf(otp: OrderedTaskPreparation): State
    reads otp
  {
    State(otp.Now(), otp.readyTasks, otp.lastYielded, otp.lost)
  }

  datatype Config = Config(acceptDangling: bool, maxDepth: nat)

  /** What one command changes, and how. */
  ghost predicate Next(s: State, c: Command, s': State, config: Config)
  {
    match c
    case Declare(t) =>
      var f := s.facts;
      s' == if t in f.done then s else s.(facts := f.(done := f.done[t := f.prereqs], declared := f.declared + {t}))
    case Register(ts, ignoreDuplicates) =>
      exists registered :: NextRegister(s, ts, ignoreDuplicates, registered, s', config)
    case Finish(prereq, ts) =>
      exists finished :: NextFinish(s, prereq, ts, finished, s')
    case BeginReady =>
      var cut := CutAll(s.facts.done.Keys, s.facts.dep, s.last, config.maxDepth);
      s' == s.(facts := Pruned(s.facts, cut), lost := s.lost + cut * s.facts.unready)
    case TakeReady(maxResults) =>
      if (maxResults.Some? && maxResults.value < 1) || s.queue == [] then s' == s
      else
        var n := if maxResults.None? || maxResults.value > |s.queue| then |s.queue| else maxResults.value;
        s' == s.(last := s.queue[..n], queue := s.queue[n..])
  }

  /** The new tasks among ts, in order, up to the first missing dependency, or nothing if the call is refused. */
  ghost predicate NextRegister(s: State, ts: seq<TaskId>, ignoreDuplicates: bool, registered: seq<TaskId>, s': State,
                               config: Config)
  {
    var f, f' := s.facts, s'.facts;
    && (if !ignoreDuplicates && (!NoDuplicates(ts) || exists t :: t in ts && t in f.done) then registered == []
        else AsFarAs(config.acceptDangling, f.dep, FirstNew(ts, f.done.Keys), registered, f.done.Keys))
    && s' == s.(facts := f.(done := WithNew(f.done, registered), unready := f'.unready), queue := s'.queue)
    && f' == RegisteredAll(f, registered)
    && (f.prereqs != {} ==> f'.unready == f.unready + Elements(registered))
    && Moved(s.queue, f.unready + Elements(registered), s'.queue, f'.unready, f'.done.Keys)
    && Released(f, f')
  }

  /** One more prerequisite for the first `finished` tasks; the next one, if any, is refused. */
  ghost predicate NextFinish(s: State, prereq: Prereq, ts: seq<TaskId>, finished: int, s': State)
  {
    var f, f' := s.facts, s'.facts;
    && 0 <= finished <= |ts|
    && (f.done == map[] ==> finished == 0)
    && (f.done != map[] && finished < |ts| ==>
          var t := ts[finished];
          t !in f'.done || t !in f'.unready || prereq !in f.prereqs || prereq in f'.done[t])
    && Moved(s.queue, f.unready, s'.queue, f'.unready, f'.done.Keys)
    && s' == s.(facts := FinishedAll(f, prereq, ts[..finished]), queue := s'.queue)
    && Released(f, f')
  }

  /** What is ready is complete; what could be ready is, and what should not be is not, if that was so before. */
  ghost predicate Released(f: Facts, f': Facts)
  {
    && f'.OnlyCompleteReady()
    && (f.NoneStuckBut({}) ==> f'.NoneStuckBut({}))
    && (f.Settled() ==> f'.Settled())
  }

  /** The two rules for a caller, and the third one they need. */
  ghost predicate Allowed(s: State, c: Command)
  {
    ObeysRules(s.facts, c) && (c.Register? ==> forall t :: t in c.ts && t !in s.facts.done ==> t !in s.Handed())
  }

  /**
   No parent of a ready present task is registered, and nothing is declared finished above an
   unready present task.
   */
  ghost predicate ObeysRules(f: Facts, c: Command)
  {
    && (c.Declare? ==> !(f.dep(c.t) in f.done && f.dep(c.t) in f.unready))
    && (c.Register? ==> forall t :: t in c.ts && t !in f.done ==> f.NoReadyChild(t))
  }

  /** The step that starts to track t as a new task. */
  ghost predicate Tracks(s: State, c: Command, s': State, t: TaskId)
  {
    c.Register? && t !in s.facts.done && t in s'.facts.done
  }

  /** How many steps register t. */
  ghost function Registering(trace: seq<State>, script: seq<Command>, t: TaskId): nat
    requires |trace| > |script|
    decreases |script|
  {
    if script == [] then 0
    else
      var n := |script| - 1;
      Registering(trace[..n + 1], script[..n], t) + (if Tracks(trace[n], script[n], trace[n + 1], t) then 1 else 0)
  }

  /** Before step n, t was declared finished and that was accepted. */
  ghost predicate DeclaredBefore(trace: seq<State>, n: nat, t: TaskId)
    requires n < |trace|
  {
    exists i :: 0 <= i < n && t !in trace[i].facts.declared && t in trace[i + 1].facts.declared
  }

  /** What a step adds to the end of the queue. */
  ghost function Appended(s: State, s': State): seq<TaskId>
  {
    if s.queue <= s'.queue then s'.queue[|s.queue|..] else []
  }

  /** Everything that has entered the queue, in order. */
  ghost function Output(trace: seq<State>): seq<TaskId>
  {
    if |trace| < 2 then [] else Output(trace[..|trace| - 1]) + Appended(trace[|trace| - 2], trace[|trace| - 1])
  }

  /** Whatever entered the queue did so behind its dependency, or after that was declared finished. */
  ghost predicate QueuedInOrder(trace: seq<State>, dep: TaskId -> TaskId)
  {
    forall j, k :: 0 <= j < |trace| - 1 && 0 <= k < |Appended(trace[j], trace[j + 1])| ==>
      InTurn(trace, j, k, dep)
  }

  ghost predicate InTurn(trace: seq<State>, j: nat, k: nat, dep: TaskId -> TaskId)
    requires j + 1 < |trace| && k < |Appended(trace[j], trace[j + 1])|
  {
    var more := Appended(trace[j], trace[j + 1]);
    dep(more[k]) in Output(trace[..j + 1]) + more[..k] || DeclaredBefore(trace, j, dep(more[k]))
  }

  /** No task is declared finished after a task that depends on it was registered. */
  ghost predicate DeclaredFirst(script: seq<Command>, dep: TaskId -> TaskId)
  {
    forall i, j :: 0 <= i < j < |script| && script[j].Declare? ==>
      forall c :: script[i].Registers(c) ==> dep(c) != script[j].t
  }

  ghost predicate NothingPruned(script: seq<Command>)
  {
    forall i :: 0 <= i < |script| ==> !script[i].BeginReady?
  }

  // -------------------------------------------------------------------------------------------
  // What the log of a run says
  // -------------------------------------------------------------------------------------------

  /** What a step adds to the log besides tasks becoming ready. */
  ghost predicate Issued(s: State, c: Command, s': State, before: seq<Event>, after: seq<Event>)
  {
    match c
    case Declare(t) => after == before + (if t in s.facts.done then [] else [Declared(t)])
    case Register(_, _) =>
      exists registered :: NoDuplicates(registered) && after == before + Registrations(registered) &&
        forall t :: t in registered <==> Tracks(s, c, s', t)
    case _ => after == before
  }

  /** The calls in a log are those of a run. */
  ghost predicate Accounted(calls: seq<Event>, trace: seq<State>, script: seq<Command>)
    requires |trace| > |script|
  {
    && (forall t :: Declared(t) in calls ==> DeclaredBefore(trace, |script|, t))
    && (forall t :: multiset(calls)[Registered(t)] == Registering(trace, script, t))
  }

  lemma AccountMore(calls: seq<Event>, trace: seq<State>, script: seq<Command>, c: Command, s': State,
                    calls': seq<Event>, config: Config)
    requires |trace| == |script| + 1 && Accounted(calls, trace, script)
    requires Next(trace[|script|], c, s', config) && Issued(trace[|script|], c, s', calls, calls')
    requires trace[|script|].facts.declared <= trace[|script|].facts.done.Keys
    ensures Accounted(calls', trace + [s'], script + [c])
  {
    hide Next;
    var n, trace', script' := |script|, trace + [s'], script + [c];
    assert script'[..n] == script && trace'[..n + 1] == trace;
    forall t
      ensures multiset(calls')[Registered(t)] == Registering(trace', script', t)
    {
      CountMore(calls, trace[n], c, s', calls', t);
    }
    forall t | Declared(t) in calls'
      ensures DeclaredBefore(trace', n + 1, t)
    {
      if Declared(t) in calls {
        var i :| 0 <= i < n && t !in trace[i].facts.declared && t in trace[i + 1].facts.declared;
        assert t !in trace'[i].facts.declared && t in trace'[i + 1].facts.declared;
      } else {
        NewDeclaration(calls, trace[n], c, s', calls', t, config);
        assert t !in trace'[n].facts.declared && t in trace'[n + 1].facts.declared;
      }
    }
  }

  lemma CountMore(calls: seq<Event>, s: State, c: Command, s': State, calls': seq<Event>, t: TaskId)
    requires Issued(s, c, s', calls, calls')
    ensures multiset(calls')[Registered(t)]
            == multiset(calls)[Registered(t)] + (if Tracks(s, c, s', t) then 1 else 0)
  {
    if c.Register? {
      var rs :| NoDuplicates(rs) && calls' == calls + Registrations(rs) && forall t :: t in rs <==> Tracks(s, c, s', t);
      RegistrationsCount(rs);
    }
  }

  lemma NewDeclaration(calls: seq<Event>, s: State, c: Command, s': State, calls': seq<Event>, t: TaskId,
                       config: Config)
    requires Next(s, c, s', config) && Issued(s, c, s', calls, calls') && s.facts.declared <= s.facts.done.Keys
    requires Declared(t) in calls' && Declared(t) !in calls
    ensures c.Declare? && t !in s.facts.declared && t in s'.facts.declared
  {
    hide Tracks;
    RegisterDeclaresNothing(calls, s, c, s', calls', t);
  }

  lemma RegisterDeclaresNothing(calls: seq<Event>, s: State, c: Command, s': State, calls': seq<Event>, t: TaskId)
    requires Issued(s, c, s', calls, calls')
    ensures c.Register? && Declared(t) in calls' ==> Declared(t) in calls
  {
    if c.Register? {
      var rs :| NoDuplicates(rs) && calls' == calls + Registrations(rs) && forall t :: t in rs <==> Tracks(s, c, s', t);
      RegistrationsCount(rs);
    }
  }

  lemma {:induction false} RegistrationsCount(rs: seq<TaskId>)
    requires NoDuplicates(rs)
    ensures forall t :: multiset(Registrations(rs))[Registered(t)] == if t in rs then 1 else 0
    ensures forall t :: Declared(t) !in Registrations(rs)
  {
    if rs == [] {
      assert Registrations(rs) == [];
    } else {
      var n := |rs| - 1;
      RegistrationsCount(rs[..n]);
      assert Registrations(rs) == Registrations(rs[..n]) + [Registered(rs[n])];
      assert rs == rs[..n] + [rs[n]];
    }
  }

  lemma {:induction false} CallsCount(log: seq<Event>, t: TaskId)
    ensures multiset(Calls(log))[Registered(t)] == multiset(log)[Registered(t)]
  {
    if log != [] {
      var n := |log| - 1;
      CallsCount(log[..n], t);
      assert log == log[..n] + [log[n]];
    }
  }

  lemma {:induction false} DeclarationsAreCalls(log: seq<Event>, t: TaskId)
    ensures Declared(t) in log ==> Declared(t) in Calls(log)
  {
    if log != [] {
      var n := |log| - 1;
      DeclarationsAreCalls(log[..n], t);
      assert log == log[..n] + [log[n]];
    }
  }

  lemma {:induction false} ReadyCount(log: seq<Event>, t: TaskId)
    ensures multiset(ReadyIds(log))[t] == multiset(log)[Ready(t)]
  {
    if log != [] {
      var n := |log| - 1;
      ReadyCount(log[..n], t);
      assert log == log[..n] + [log[n]];
    }
  }

  /** The next step keeps the order; `out` and `log` are what they are after it. */
  lemma OrderMore(trace: seq<State>, script: seq<Command>, c: Command, s': State, calls: seq<Event>, f: Facts,
                  log: seq<Event>, out: seq<TaskId>, config: Config)
    requires |trace| == |script| + 1 && QueuedInOrder(trace, f.dep) && Accounted(calls, trace, script)
    requires Next(trace[|script|], c, s', config) && Issued(trace[|script|], c, s', calls, Calls(log))
    requires trace[|script|].facts.declared <= trace[|script|].facts.done.Keys
    requires Recorded(f, log, out) && out == Output(trace) + Appended(trace[|script|], s')
    ensures Output(trace + [s']) == out && QueuedInOrder(trace + [s'], f.dep)
  {
    hide Next, Issued, Accounted, Recorded, Appended;
    var n, trace' := |script|, trace + [s'];
    assert trace'[..n + 1] == trace;
    forall j, k | 0 <= j < |trace'| - 1 && 0 <= k < |Appended(trace'[j], trace'[j + 1])|
      ensures InTurn(trace', j, k, f.dep)
    {
      if j < n {
        assert InTurn(trace, j, k, f.dep);
        StillInTurn(trace, s', j, k, f.dep);
      } else {
        var more := Appended(trace[n], s');
        JustInTurn(trace, script, c, s', calls, f, log, out, k, config);
      }
    }
  }

  lemma StillInTurn(trace: seq<State>, s': State, j: nat, k: nat, dep: TaskId -> TaskId)
    requires j + 1 < |trace| && k < |Appended(trace[j], trace[j + 1])| && InTurn(trace, j, k, dep)
    ensures InTurn(trace + [s'], j, k, dep)
  {
    hide Appended;
    var trace' := trace + [s'];
    assert trace'[..j + 1] == trace[..j + 1];
    var x := dep(Appended(trace[j], trace[j + 1])[k]);
    if DeclaredBefore(trace, j, x) {
      var i :| 0 <= i < j && x !in trace[i].facts.declared && x in trace[i + 1].facts.declared;
      assert x !in trace'[i].facts.declared && x in trace'[i + 1].facts.declared;
    }
  }

  lemma JustInTurn(trace: seq<State>, script: seq<Command>, c: Command, s': State, calls: seq<Event>, f: Facts,
                   log: seq<Event>, out: seq<TaskId>, k: nat, config: Config)
    requires |trace| == |script| + 1 && Accounted(calls, trace, script)
    requires Next(trace[|script|], c, s', config) && Issued(trace[|script|], c, s', calls, Calls(log))
    requires trace[|script|].facts.declared <= trace[|script|].facts.done.Keys
    requires Recorded(f, log, out) && out == Output(trace) + Appended(trace[|script|], s')
    requires k < |Appended(trace[|script|], s')|
    ensures InTurn(trace + [s'], |script|, k, f.dep)
  {
    hide Next, Issued, Recorded, Appended;
    var n, trace', more := |script|, trace + [s'], Appended(trace[|script|], s');
    var x, i := f.dep(more[k]), |Output(trace)| + k;
    assert trace'[..n + 1] == trace && out[i] == more[k] && out[..i] == Output(trace) + more[..k];
    RecordedInOrder(f, log, out, i);
    if x !in out[..i] {
      DeclarationsAreCalls(log, x);
      if Declared(x) !in calls {
        NewDeclaration(calls, trace[n], c, s', Calls(log), x, config);
        DeclareAppendsNothing(trace[n], c, s', config);
        assert false;
      }
      var j :| 0 <= j < n && x !in trace[j].facts.declared && x in trace[j + 1].facts.declared;
      assert x !in trace'[j].facts.declared && x in trace'[j + 1].facts.declared;
    }
  }

  lemma RecordedInOrder(f: Facts, log: seq<Event>, out: seq<TaskId>, i: nat)
    requires Recorded(f, log, out) && i < |out|
    ensures f.dep(out[i]) in out[..i] || Declared(f.dep(out[i])) in log
  {
    OutputInOrder(log, f.dep, i);
  }

  lemma DeclareAppendsNothing(s: State, c: Command, s': State, config: Config)
    requires Next(s, c, s', config) && c.Declare?
    ensures Appended(s, s') == []
  {
  }

  lemma OncePerTracking(f: Facts, log: seq<Event>, out: seq<TaskId>, trace: seq<State>, script: seq<Command>)
    requires |trace| > |script| && Recorded(f, log, out) && Accounted(Calls(log), trace, script)
    ensures forall t :: multiset(out)[t] <= Registering(trace, script, t)
  {
    hide Registering;
    forall t
      ensures multiset(out)[t] <= Registering(trace, script, t)
    {
      CallsCount(log, t);
      ReadyCount(log, t);
    }
  }

  // -------------------------------------------------------------------------------------------
  // Runs
  // -------------------------------------------------------------------------------------------

  method Execute(otp: OrderedTaskPreparation, c: Command)
    requires otp.Valid() && forall t :: t in c.Names() ==> otp.Grounded(t)
    modifies otp, otp.roots, otp.roots.tree, otp.roots.objects
    ensures otp.Valid() && fresh(otp.roots.objects - old(otp.roots.objects))
    ensures Next(old(StateOf(otp)), c, StateOf(otp), ConfigOf(otp))
    ensures Issued(old(StateOf(otp)), c, StateOf(otp), old(Calls(otp.log)), Calls(otp.log))
    ensures otp.yielded + otp.readyTasks
            == old(otp.yielded + otp.readyTasks) + Appended(old(StateOf(otp)), StateOf(otp))
    ensures old(otp.Now().Settled()) && Timely(c, old(otp.unready), otp.dependencyOf) ==> otp.Now().Settled()
    ensures old(otp.Now().Disciplined(otp.Handed())) && Allowed(old(StateOf(otp)), c) ==>
              otp.Now().Disciplined(otp.Handed()) && otp.lost == old(otp.lost)
    ensures c.BeginReady? || StillStuck(old(otp.Now()), otp.Now())
  {
    hide Recorded, Next, Allowed, Calls;
    hide OrderedTaskPreparation.Rooted;
    hide Facts.Settled;
    match c
    case Declare(t) =>
      assert t in c.Names();
      ExecuteDeclare(otp, t);
    case Register(ts, ignoreDuplicates) =>
      assert forall t :: t in ts ==> t in c.Names();
      ExecuteRegister(otp, ts, ignoreDuplicates);
    case Finish(prereq, ts) => ExecuteFinish(otp, prereq, ts);
    case BeginReady => ExecuteBegin(otp);
    case TakeReady(maxResults) => ExecuteTake(otp, maxResults);
  }

  /** A command after which a settled state is settled: no pruning, and nothing declared too late. */
  ghost predicate Timely(c: Command, unready: set<TaskId>, dep: TaskId -> TaskId)
  {
    !c.BeginReady? && (c.Declare? ==> forall t :: t in unready ==> dep(t) != c.t)
  }

  method ExecuteDeclare(otp: OrderedTaskPreparation, t: TaskId)
    requires otp.Valid() && otp.Grounded(t)
    modifies otp, otp.roots, otp.roots.tree, otp.roots.objects
    ensures otp.Valid() && fresh(otp.roots.objects - old(otp.roots.objects))
    ensures Next(old(StateOf(otp)), Declare(t), StateOf(otp), ConfigOf(otp))
    ensures Issued(old(StateOf(otp)), Declare(t), StateOf(otp), old(Calls(otp.log)), Calls(otp.log))
    ensures otp.yielded == old(otp.yielded) && otp.readyTasks == old(otp.readyTasks)
    ensures old(otp.Now().Settled()) && Timely(Declare(t), old(otp.unready), otp.dependencyOf) ==> otp.Now().Settled()
    ensures old(otp.Now().Disciplined(otp.Handed())) && Allowed(old(StateOf(otp)), Declare(t)) ==>
              otp.Now().Disciplined(otp.Handed()) && otp.lost == old(otp.lost)
    ensures StillStuck(old(otp.Now()), otp.Now())
  {
    hide Recorded, Calls;
    hide OrderedTaskPreparation.Rooted;
    hide Facts.Settled;
    DisciplinedClosed(otp.Now(), otp.Handed());
    hide Facts.Closed;
    hide Facts.Disciplined;
    var _ := otp.SetFinishedDependency(t);
  }

  lemma DisciplinedClosed(f: Facts, h: set<TaskId>)
    ensures f.Disciplined(h) ==> f.Closed()
  {
  }

  method ExecuteRegister(otp: OrderedTaskPreparation, ts: seq<TaskId>, ignoreDuplicates: bool)
    requires otp.Valid() && forall t :: t in ts ==> otp.Grounded(t)
    modifies otp, otp.roots, otp.roots.tree, otp.roots.objects
    ensures otp.Valid() && fresh(otp.roots.objects - old(otp.roots.objects))
    ensures Next(old(StateOf(otp)), Register(ts, ignoreDuplicates), StateOf(otp), ConfigOf(otp))
    ensures Issued(old(StateOf(otp)), Register(ts, ignoreDuplicates), StateOf(otp), old(Calls(otp.log)), Calls(otp.log))
    ensures otp.yielded == old(otp.yielded) && old(otp.readyTasks) <= otp.readyTasks
    ensures old(otp.Now().Settled()) ==> otp.Now().Settled()
    ensures old(otp.Now().Disciplined(otp.Handed())) && Allowed(old(StateOf(otp)), Register(ts, ignoreDuplicates)) ==>
              otp.Now().Disciplined(otp.Handed()) && otp.lost == old(otp.lost)
    ensures StillStuck(old(otp.Now()), otp.Now())
  {
    hide Recorded, Calls, Moved, WithNew, Registrations, RegisteredAll, FirstNew;
    hide OrderedTaskPreparation.Rooted;
    hide AsFarAs;
    hide Facts.OnlyCompleteReady;
    hide Facts.Settled;
    hide Facts.NoneStuckBut;
    hide Facts.Closed;
    hide Facts.Disciplined;
    FirstNewSpec(ts, otp.tasks.Keys);
    ghost var known, handed := otp.tasks.Keys, otp.Handed();
    var err, registered := otp.RegisterTasks(ts, ignoreDuplicates);
    otp.RegisteredAreNew(FirstNew(ts, known), registered, known);
    PrefixWithin(registered, FirstNew(ts, known), ts);
    MovedPrefix(old(otp.readyTasks), old(otp.unready) + Elements(registered), otp.readyTasks, otp.unready,
                otp.tasks.Keys);
    WithNewKeys(old(otp.tasks), registered);
    RecordedComplete(otp.Now(), otp.log, otp.yielded + otp.readyTasks);
    assert NextRegister(old(StateOf(otp)), ts, ignoreDuplicates, registered, StateOf(otp), ConfigOf(otp));
  }

  lemma MovedPrefix(q: seq<TaskId>, u: set<TaskId>, q': seq<TaskId>, u': set<TaskId>, tracked: set<TaskId>)
    requires Moved(q, u, q', u', tracked)
    ensures q <= q'
  {
  }

  lemma PrefixWithin(a: seq<TaskId>, b: seq<TaskId>, ts: seq<TaskId>)
    requires a <= b && NoDuplicates(b) && forall t :: t in b ==> t in ts
    ensures NoDuplicates(a) && Elements(a) <= Elements(ts)
  {
    forall t | t in a
      ensures t in ts
    {
      assert t in b;
    }
  }

  method ExecuteFinish(otp: OrderedTaskPreparation, prereq: Prereq, ts: seq<TaskId>)
    requires otp.Valid()
    modifies otp, otp.roots, otp.roots.tree, otp.roots.objects
    ensures otp.Valid() && otp.roots.objects == old(otp.roots.objects)
    ensures Next(old(StateOf(otp)), Finish(prereq, ts), StateOf(otp), ConfigOf(otp))
    ensures Calls(otp.log) == old(Calls(otp.log)) && StillStuck(old(otp.Now()), otp.Now())
    ensures otp.yielded == old(otp.yielded) && old(otp.readyTasks) <= otp.readyTasks
    ensures old(otp.Now().Settled()) ==> otp.Now().Settled()
    ensures old(otp.Now().Disciplined(otp.Handed())) ==>
              otp.Now().Disciplined(otp.Handed()) && otp.lost == old(otp.lost)
  {
    hide Recorded, Calls, Moved, FinishedAll;
    hide OrderedTaskPreparation.Rooted;
    hide Facts.Settled;
    hide Facts.NoneStuckBut;
    hide Facts.Closed;
    hide Facts.Disciplined;
    var _, finished := otp.FinishPrereq(prereq, ts);
    MovedPrefix(old(otp.readyTasks), old(otp.unready), otp.readyTasks, otp.unready, otp.tasks.Keys);
    RecordedComplete(otp.Now(), otp.log, otp.yielded + otp.readyTasks);
    assert NextFinish(old(StateOf(otp)), prereq, ts, finished, StateOf(otp));
  }

  method ExecuteBegin(otp: OrderedTaskPreparation)
    requires otp.Valid()
    modifies otp, otp.roots, otp.roots.tree, otp.roots.objects
    ensures otp.Valid() && otp.roots.objects == old(otp.roots.objects)
    ensures Next(old(StateOf(otp)), BeginReady, StateOf(otp), ConfigOf(otp))
    ensures otp.log == old(otp.log) && otp.yielded == old(otp.yielded) && otp.readyTasks == old(otp.readyTasks)
    ensures old(otp.Now().Disciplined(otp.Handed())) ==>
              otp.Now().Disciplined(otp.Handed()) && otp.lost == old(otp.lost)
  {
    hide Recorded, CutAll, BatchSpares;
    hide OrderedTaskPreparation.Rooted;
    hide Facts.NoneStuckBut;
    hide Facts.Closed;
    hide Facts.Disciplined;
    CutAllWithin(otp.tasks.Keys, otp.dependencyOf, otp.lastYielded, otp.maxDepth);
    var _ := otp.BeginReadyTasks();
  }

  method ExecuteTake(otp: OrderedTaskPreparation, maxResults: Option<int>)
    requires otp.Valid()
    modifies otp
    ensures otp.Valid()
    ensures Next(old(StateOf(otp)), TakeReady(maxResults), StateOf(otp), ConfigOf(otp))
    ensures otp.Now() == old(otp.Now()) && otp.log == old(otp.log) && otp.lost == old(otp.lost)
    ensures otp.Handed() <= old(otp.Handed())
    ensures otp.yielded + otp.readyTasks == old(otp.yielded + otp.readyTasks)
    ensures otp.readyTasks == old(otp.readyTasks) || |otp.readyTasks| < |old(otp.readyTasks)|
  {
    hide Recorded;
    hide OrderedTaskPreparation.Rooted;
    var _, _ := otp.TakeReadyTasks(maxResults);
  }

  /** The states of a run, one command after the other. */
  ghost predicate Traces(trace: seq<State>, script: seq<Command>, config: Config)
  {
    && |trace| == |script| + 1
    && forall i :: 0 <= i < |script| ==> Next(trace[i], script[i], trace[i + 1], config)
  }

  /** Every command was allowed when it was given. */
  ghost predicate AllAllowed(trace: seq<State>, script: seq<Command>)
    requires |trace| >= |script|
  {
    forall i :: 0 <= i < |script| ==> Allowed(trace[i], script[i])
  }

  lemma TraceMore(trace: seq<State>, script: seq<Command>, i: nat, s: State, config: Config)
    requires i < |script| && Traces(trace, script[..i], config) && Next(trace[i], script[i], s, config)
    ensures Traces(trace + [s], script[..i + 1], config)
    ensures AllAllowed(trace + [s], script[..i + 1]) <==> AllAllowed(trace, script[..i]) && Allowed(trace[i], script[i])
    ensures script[..i + 1] == script[..i] + [script[i]]
  {
    hide Next, Allowed;
    var longer, trace' := script[..i + 1], trace + [s];
    assert forall j :: 0 <= j < i ==> longer[j] == script[..i][j];
    assert forall j :: 0 <= j <= i ==> trace'[j] == trace[j];
    assert longer[i] == script[i] && trace'[i] == trace[i] && trace'[i + 1] == s;
    if AllAllowed(trace', longer) {
      forall j | 0 <= j < i
        ensures Allowed(trace[j], script[..i][j])
      {
        assert Allowed(trace'[j], longer[j]);
      }
    }
  }

  /**
   Every run from the start. Its states follow the commands; nothing enters the queue before its
   dependency unless that was declared finished, nor more often than it was registered; the root
   tracker holds exactly the tracked tasks. If all commands were allowed, no unready task was ever
   pruned. If there was no pruning and tasks were declared before anything depended on them, the
   tasks that are no longer unready are the least fixed point of the readiness rule.
   */
  method Run(otp: OrderedTaskPreparation, script: seq<Command>) returns (ghost trace: seq<State>)
    requires otp.Valid() && otp.tasks == map[] && otp.unready == {} && otp.log == [] && otp.lost == {}
    requires forall i, t :: 0 <= i < |script| && t in script[i].Names() ==> otp.Grounded(t)
    modifies otp, otp.roots, otp.roots.tree, otp.roots.objects
    ensures otp.Valid() && otp.roots.tree.parents.Keys == otp.tasks.Keys
    ensures Traces(trace, script, ConfigOf(otp)) && trace[0] == old(StateOf(otp)) && trace[|script|] == StateOf(otp)
    ensures Output(trace) == otp.yielded + otp.readyTasks && QueuedInOrder(trace, otp.dependencyOf)
    ensures forall t :: multiset(Output(trace))[t] <= Registering(trace, script, t)
    ensures AllAllowed(trace, script) ==> otp.lost == {}
    ensures NothingPruned(script) && DeclaredFirst(script, otp.dependencyOf) ==>
              && otp.Now().Step(otp.Now().ReadySet()) == otp.Now().ReadySet()
              && forall s :: otp.Now().Step(s) <= s ==> otp.Now().ReadySet() <= s
  {
    hide Recorded, Next, Allowed, AllAllowed, Traces, Issued, Accounted, NothingPruned, DeclaredFirst, Timely;
    hide QueuedInOrder, Output, Appended;
    hide OrderedTaskPreparation.Rooted;
    hide Facts.Settled;
    hide Facts.Disciplined;
    NothingYet(otp);
    trace := [StateOf(otp)];
    assert script[..0] == [];
    for i := 0 to |script|
      invariant otp.Valid() && fresh(otp.roots.objects - old(otp.roots.objects))
      invariant Traces(trace, script[..i], ConfigOf(otp)) && |trace| == i + 1
      invariant trace[0] == old(StateOf(otp)) && trace[i] == StateOf(otp)
      invariant Accounted(Calls(otp.log), trace, script[..i])
      invariant Output(trace) == otp.yielded + otp.readyTasks && QueuedInOrder(trace, otp.dependencyOf)
      invariant AllAllowed(trace, script[..i]) ==> otp.Now().Disciplined(otp.Handed()) && otp.lost == {}
      invariant NothingPruned(script) && DeclaredFirst(script, otp.dependencyOf) ==> otp.Now().Settled()
      invariant forall t :: t in otp.unready ==> Mentioned(script[..i], t)
    {
      ghost var calls := Calls(otp.log);
      DeclaredAreTracked(otp);
      StillTimely(otp.unready, script, i, otp.dependencyOf);
      Execute(otp, script[i]);
      TraceMore(trace, script, i, StateOf(otp), ConfigOf(otp));
      AccountMore(calls, trace, script[..i], script[i], StateOf(otp), Calls(otp.log), ConfigOf(otp));
      OrderMore(trace, script[..i], script[i], StateOf(otp), calls, otp.Now(), otp.log,
                otp.yielded + otp.readyTasks, ConfigOf(otp));
      UnreadyMentioned(trace[i], script, i, StateOf(otp), ConfigOf(otp));
      trace := trace + [StateOf(otp)];
    }
    assert script[..|script|] == script;
    OncePerTracking(otp.Now(), otp.log, otp.yielded + otp.readyTasks, trace, script);
    Tracked(otp);
    if otp.Now().Settled() {
      LeastFixedPoint(otp);
    }
  }

  /**
   A complete task whose dependency is ready and will not announce it again stays unready in every
   run without pruning, from any state on.
   */
  method RunWithoutPruning(otp: OrderedTaskPreparation, script: seq<Command>)
    requires otp.Valid() && NothingPruned(script)
    requires forall i, t :: 0 <= i < |script| && t in script[i].Names() ==> otp.Grounded(t)
    modifies otp, otp.roots, otp.roots.tree, otp.roots.objects
    ensures otp.Valid() && fresh(otp.roots.objects - old(otp.roots.objects))
    ensures StillStuck(old(otp.Now()), otp.Now())
  {
    hide Recorded, Next, Allowed, Issued, Timely, StillStuck;
    hide OrderedTaskPreparation.Rooted;
    hide Facts.Settled;
    hide Facts.Disciplined;
    SameStuck(otp.Now());
    for i := 0 to |script|
      invariant otp.Valid() && fresh(otp.roots.objects - old(otp.roots.objects))
      invariant StillStuck(old(otp.Now()), otp.Now())
    {
      ghost var f := otp.Now();
      Execute(otp, script[i]);
      StillStuckTrans(old(otp.Now()), f, otp.Now());
    }
  }

  /** Nor can a call of finish_prereq() release it: all its prerequisites are finished, so each is refused. */
  lemma FinishIsRefused(otp: OrderedTaskPreparation, prereq: Prereq, t: TaskId)
    requires otp.Now().Stuck(t)
    ensures otp.Refusal(prereq, t) == if prereq in otp.prereqs then PrereqDone else UnknownPrereq
  {
  }

  ghost predicate Mentioned(script: seq<Command>, t: TaskId)
  {
    exists i :: 0 <= i < |script| && script[i].Registers(t)
  }

  lemma NothingYet(otp: OrderedTaskPreparation)
    requires otp.Valid() && otp.tasks == map[] && otp.unready == {} && otp.log == []
    ensures otp.Now().Settled() && otp.Now().Disciplined(otp.Handed())
    ensures Accounted(Calls(otp.log), [StateOf(otp)], []) && Traces([StateOf(otp)], [], ConfigOf(otp))
    ensures Output([StateOf(otp)]) == otp.yielded + otp.readyTasks && QueuedInOrder([StateOf(otp)], otp.dependencyOf)
  {
  }

  lemma DeclaredAreTracked(otp: OrderedTaskPreparation)
    requires otp.Valid()
    ensures otp.Now().declared <= otp.Now().done.Keys
  {
  }

  lemma Tracked(otp: OrderedTaskPreparation)
    requires otp.Valid()
    ensures otp.roots.tree.parents.Keys == otp.tasks.Keys
  {
  }

  /** Without pruning, and with early declarations, nothing unready depends on a task when it is declared finished. */
  lemma StillTimely(unready: set<TaskId>, script: seq<Command>, i: nat, dep: TaskId -> TaskId)
    requires i < |script| && forall t :: t in unready ==> Mentioned(script[..i], t)
    ensures NothingPruned(script) && DeclaredFirst(script, dep) ==> Timely(script[i], unready, dep)
  {
  }

  lemma UnreadyMentioned(s: State, script: seq<Command>, i: nat, s': State, config: Config)
    requires i < |script| && Next(s, script[i], s', config)
    requires forall t :: t in s.facts.unready ==> Mentioned(script[..i], t)
    ensures forall t :: t in s'.facts.unready ==> Mentioned(script[..i + 1], t)
  {
    hide CutAll, WithNew, FinishedAll, RegisteredAll, FirstNew;
    var longer := script[..i + 1];
    forall t | t in s'.facts.unready
      ensures Mentioned(longer, t)
    {
      if t in s.facts.unready {
        var j :| 0 <= j < i && script[..i][j].Registers(t);
        assert longer[j].Registers(t);
      } else {
        var registered :| NextRegister(s, script[i].ts, script[i].ignoreDuplicates, registered, s', config);
        FirstNewSpec(script[i].ts, s.facts.done.Keys);
        assert t in registered;
        assert t in FirstNew(script[i].ts, s.facts.done.Keys);
        assert longer[i].Registers(t);
      }
    }
  }

  lemma LeastFixedPoint(otp: OrderedTaskPreparation)
    requires otp.Valid() && otp.Now().Settled()
    ensures otp.Now().Step(otp.Now().ReadySet()) == otp.Now().ReadySet()
    ensures forall s :: otp.Now().Step(s) <= s ==> otp.Now().ReadySet() <= s
  {
    hide Recorded;
    var f := otp.Now();
    SettledIsFixedPoint(f);
    assert forall u :: u in f.done ==> u in otp.roots.tree.parents;
    forall s, t | f.Step(s) <= s && t in f.ReadySet()
      ensures t in s
    {
      SettledIsLeast(f, otp.roots.rank, s, t);
    }
  }
}

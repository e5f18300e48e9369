/**
 Two runs of OrderedTaskPreparation (trinity/_utils/datastructures.py) that show why its rules need
 all their conditions: one prunes a task that is not ready, one leaves a task waiting for good.
 */
module TaskCorners {
  import opened Collections
  import opened TreeRoots
  import opened TaskFacts
  import opened OrderedTasks
  import opened TaskRuns

  /** 0, 1, 2 is a chain; 3, 4 and 5 all depend on 2. */
  function Up(t: TaskId): TaskId
  {
    if 3 <= t <= 5 then 2 else t - 1
  }

  ghost function Height(t: TaskId): nat
  {
    if t < 0 then 0 else t + 1
  }

  const CONFIG := Config(true, 0)

  // -------------------------------------------------------------------------------------------
  // What the commands do as long as ready tasks and complete ones are the same
  // -------------------------------------------------------------------------------------------

  /** The tasks in c are ready, those in u have nothing finished yet; those in d were declared. */
  ghost function Known(c: set<TaskId>, u: set<TaskId>, d: set<TaskId>): Facts
  {
    Facts(map t | t in c + u :: if t in c then {0} else {}, u, d, {0}, Up)
  }

  lemma DeclareStep(s: State, c: set<TaskId>, u: set<TaskId>, d: set<TaskId>, t: TaskId, s': State)
    requires s.facts == Known(c, u, d) && Next(s, Declare(t), s', CONFIG) && t !in c + u && Up(t) !in u
    ensures s' == s.(facts := Known(c + {t}, u, d + {t})) && ObeysRules(s.facts, Declare(t))
  {
  }

  lemma RegisterStep(s: State, c: set<TaskId>, u: set<TaskId>, d: set<TaskId>, ts: seq<TaskId>, s': State)
    requires s.facts == Known(c, u, d) && Next(s, Register(ts, false), s', CONFIG)
    requires NoDuplicates(ts) && Elements(ts) !! c + u && c !! u
    requires forall x :: x in c ==> Up(x) !in ts
    ensures s' == s.(facts := Known(c, u + Elements(ts), d)) && ObeysRules(s.facts, Register(ts, false))
  {
    hide Moved, WithNew, AsFarAs, FirstNew, Released;
    var f := s.facts;
    KnownMore(c, u, d, ts);
    AllNew(ts, f.done.Keys);
    var registered :| NextRegister(s, ts, false, registered, s', CONFIG);
    AllRegistered(f.dep, ts, registered, f.done.Keys);
    NothingElseMoved(s.queue, f.unready + Elements(ts), s'.queue, s'.facts.unready, s'.facts.done.Keys);
  }

  lemma KnownMore(c: set<TaskId>, u: set<TaskId>, d: set<TaskId>, ts: seq<TaskId>)
    requires Elements(ts) !! c + u
    ensures Known(c, u, d).done.Keys == c + u && forall t :: t in ts ==> t !in c + u
    ensures WithNew(Known(c, u, d).done, ts) == Known(c, u + Elements(ts), d).done
  {
  }

  lemma AllRegistered(dep: TaskId -> TaskId, added: seq<TaskId>, registered: seq<TaskId>, known: set<TaskId>)
    requires AsFarAs(true, dep, added, registered, known)
    ensures registered == added
  {
  }

  lemma {:induction false} AllNew(ts: seq<TaskId>, known: set<TaskId>)
    requires NoDuplicates(ts) && forall t :: t in ts ==> t !in known
    ensures FirstNew(ts, known) == ts
  {
    if ts != [] {
      var init, t := ts[..|ts| - 1], ts[|ts| - 1];
      AllNew(init, known);
      assert ts == init + [t] && t in ts;
    }
  }

  lemma NothingElseMoved(q: seq<TaskId>, u: set<TaskId>, q': seq<TaskId>, u': set<TaskId>, tracked: set<TaskId>)
    requires Moved(q, u, q', u', tracked) && u == u'
    ensures q == q'
  {
    CountElements(q'[|q|..]);
    assert u - u' == {};
    assert q' == q + q'[|q|..];
  }

  lemma FinishStep(s: State, c: set<TaskId>, u: set<TaskId>, d: set<TaskId>, t: TaskId, s': State)
    requires s.facts == Known(c, u, d) && Next(s, Finish(0, [t]), s', CONFIG)
    requires c !! u && t in u && Up(t) in c
    ensures s' == s.(facts := Known(c + {t}, u - {t}, d), queue := s.queue + [t])
  {
    hide Moved, FinishedAll, Released;
    var f, f' := s.facts, s'.facts;
    var finished :| NextFinish(s, 0, [t], finished, s');
    FinishedStep(f, 0, [t], 0);
    assert [t][..1] == [t];
    assert finished == 1;
    ReleasedAlone(c, u, d, t);
    OneMoreMoved(s.queue, u, s'.queue, f'.unready, f'.done.Keys, t);
  }

  lemma ReleasedAlone(c: set<TaskId>, u: set<TaskId>, d: set<TaskId>, t: TaskId)
    requires c !! u && t in u && Up(t) in c
    ensures FinishedOne(Known(c, u, d), 0, t) == Known(c + {t}, u - {t}, d)
  {
    hide Due;
    var f := Known(c, u, d);
    var f' := f.(done := f.done[t := f.done[t] + {0}]);
    assert f'.Complete(t) && f'.DepReady(t);
    forall x | x in f'.unready && x != t
      ensures !f'.Complete(x)
    {
    }
    DueAlone(f', t);
    assert f'.done == Known(c + {t}, u - {t}, d).done;
  }

  lemma DueAlone(f: Facts, t: TaskId)
    requires t in f.unready && forall x :: x in f.unready && x != t ==> !f.Complete(x)
    ensures Due(f, t) == {t}
  {
    assert Below(f, t, t, 0);
  }

  lemma OneMoreMoved(q: seq<TaskId>, u: set<TaskId>, q': seq<TaskId>, u': set<TaskId>, tracked: set<TaskId>, t: TaskId)
    requires Moved(q, u, q', u', tracked) && u - u' == {t}
    ensures q' == q + [t]
  {
    var more := q'[|q|..];
    CountElements(more);
    assert more[0] in Elements(more);
    assert q' == q + more;
  }

  lemma BeginStep(s: State, c: set<TaskId>, u: set<TaskId>, d: set<TaskId>, cut: set<TaskId>, s': State)
    requires s.facts == Known(c, u, d) && Next(s, BeginReady, s', CONFIG) && c !! u && d <= c
    requires CutAll(c + u, Up, s.last, 0) == cut && cut <= c
    ensures s' == s.(facts := Known(c - cut, u, d - cut))
  {
    assert s.facts.done.Keys == c + u;
    assert s.facts.done - cut == Known(c - cut, u, d - cut).done;
    assert s.lost + cut * u == s.lost;
  }

  /** What pruning twice from t removes: its root and the task below, as far as they are above t. */
  lemma TwoCuts(ts: set<TaskId>, t: TaskId, r: TaskId, d: nat, below: TaskId)
    requires IsRoot(EdgesOf(ts, Up), t, r, d) && d > 0
    requires d > 1 ==> Climb(EdgesOf(ts, Up), t, d - 1) == Some(below)
    ensures CutTimes(ts, Up, t, 0, 2) == if d == 1 then {r} else {r, below}
  {
    hide CutTimes;
    CutTimesAre(ts, Up, t, 0, 2, r, d);
    var edges, cut := EdgesOf(ts, Up), CutTimes(ts, Up, t, 0, 2);
    assert Climb(edges, t, d) == Some(r);
    assert forall x :: x in cut ==> exists j: nat :: DepthAfter(d, 0, 2) < j <= d && Climb(edges, t, j) == Some(x);
    assert r in cut && (d > 1 ==> below in cut);
  }

  /** Pruning from a task whose dependency is the root of its tree removes the dependency. */
  lemma CutParent(ts: set<TaskId>, t: TaskId)
    requires t in ts && Up(t) in ts && Up(Up(t)) !in ts
    ensures CutTimes(ts, Up, t, 0, 2) == {Up(t)}
  {
    var edges := EdgesOf(ts, Up);
    assert Climb(edges, t, 1) == Climb(edges, Up(t), 0);
    TwoCuts(ts, t, Up(t), 1, t);
  }

  lemma CutBatchOfOne(ts: set<TaskId>, t: TaskId)
    requires t in ts && Up(t) in ts && Up(Up(t)) !in ts
    ensures CutAll(ts, Up, [t], 0) == {Up(t)} && CutAll(ts, Up, [], 0) == {}
  {
    CutParent(ts, t);
    assert ts - {} == ts;
  }

  /** From 4 the two tasks at the top go, and from 5 the next one. */
  lemma CutWholeChain(ts: set<TaskId>)
    requires ts == {0, 1, 2, 3, 4, 5}
    ensures CutAll(ts, Up, [4, 5], 0) == {0, 1, 2}
  {
    hide CutTimes;
    var edges := EdgesOf(ts, Up);
    assert Climb(edges, 0, 0) == Some(0) && Climb(edges, 1, 1) == Some(0) && Climb(edges, 2, 2) == Some(0);
    assert Climb(edges, 1, 0) == Some(1) && Climb(edges, 2, 1) == Some(1);
    assert Climb(edges, 4, 3) == Climb(edges, 2, 2) && Climb(edges, 4, 2) == Climb(edges, 2, 1);
    TwoCuts(ts, 4, 0, 3, 1);
    CutParent(ts - {0, 1}, 5);
    assert ts - {} == ts && [4, 5][..1] == [4];
    assert CutAll(ts, Up, [4], 0) == {0, 1};
  }

  // -------------------------------------------------------------------------------------------
  // A run that prunes an unready task
  // -------------------------------------------------------------------------------------------

  /** Prepare 2, 3, 4 and 5 on top of 1. */
  function Preparing(): seq<Command>
  {
    [Declare(1), Register([2, 3, 4, 5], false), Finish(0, [2]), Finish(0, [3]), Finish(0, [4]), Finish(0, [5])]
  }

  /** Hand out 2, then 3, then 4 and 5; 1 and 2 are pruned on the way. */
  function HandingOut(): seq<Command>
  {
    [BeginReady, TakeReady(Some(1)), BeginReady, TakeReady(Some(1)), BeginReady, TakeReady(None)]
  }

  /** Bring back 0, 1 and 2; 1 becomes ready once more and waits in the queue. */
  function BringingBack(): seq<Command>
  {
    [Declare(0), Register([1], false), Finish(0, [1]), Declare(2)]
  }

  /** The next call prunes 0, 1 and 2 and hands out 1; 0 and 1 are registered; the call after that prunes 0. */
  function Losing(): seq<Command>
  {
    [BeginReady, TakeReady(None), Register([0, 1], false), BeginReady]
  }

  function Script(): seq<Command>
  {
    Preparing() + HandingOut() + BringingBack() + Losing()
  }

  /** Both rules are obeyed by every command, in the state it finds. */
  ghost predicate Obeyed(trace: seq<State>, script: seq<Command>)
    requires |trace| == |script| + 1
  {
    forall i :: 0 <= i < |script| ==> ObeysRules(trace[i].facts, script[i])
  }

  /** Whoever takes tasks finds some, and does so before ready_tasks() is called again. */
  ghost predicate OneConsumer(trace: seq<State>, script: seq<Command>)
    requires |trace| == |script| + 1
  {
    forall i :: 0 <= i < |script| && script[i].BeginReady? && i + 1 < |script| ==>
      script[i + 1].TakeReady? && trace[i + 1].queue != []
  }

  lemma ReplayPreparing(trace: seq<State>)
    requires Traces(trace, Preparing(), CONFIG) && trace[0] == State(Known({}, {}, {}), [], [], {})
    ensures trace[6] == State(Known({1, 2, 3, 4, 5}, {}, {1}), [2, 3, 4, 5], [], {})
    ensures Obeyed(trace, Preparing())
  {
    hide Next, Known, ObeysRules;
    var script := Preparing();
    assert forall i :: 0 <= i < 6 ==> Next(trace[i], script[i], trace[i + 1], CONFIG);
    RegisterFour(trace[0], trace[1], trace[2]);
    FinishTwo(trace[2], trace[3], trace[4]);
    FinishTwoMore(trace[4], trace[5], trace[6]);
    NoRuleFor(trace, script);
  }

  lemma RegisterFour(s: State, s': State, s'': State)
    requires s == State(Known({}, {}, {}), [], [], {})
    requires Next(s, Declare(1), s', CONFIG) && Next(s', Register([2, 3, 4, 5], false), s'', CONFIG)
    ensures s'' == State(Known({1}, {2, 3, 4, 5}, {1}), [], [], {})
    ensures ObeysRules(s.facts, Declare(1)) && ObeysRules(s'.facts, Register([2, 3, 4, 5], false))
  {
    hide Next, Known, ObeysRules;
    DeclareStep(s, {}, {}, {}, 1, s');
    assert {} + {1} == {1};
    RegisterStep(s', {1}, {}, {1}, [2, 3, 4, 5], s'');
    assert {} + Elements([2, 3, 4, 5]) == {2, 3, 4, 5};
  }

  lemma FinishTwo(s: State, s': State, s'': State)
    requires s == State(Known({1}, {2, 3, 4, 5}, {1}), [], [], {})
    requires Next(s, Finish(0, [2]), s', CONFIG) && Next(s', Finish(0, [3]), s'', CONFIG)
    ensures s'' == State(Known({1, 2, 3}, {4, 5}, {1}), [2, 3], [], {})
  {
    hide Next, Known;
    FinishStep(s, {1}, {2, 3, 4, 5}, {1}, 2, s');
    assert {1} + {2} == {1, 2} && {2, 3, 4, 5} - {2} == {3, 4, 5} && [] + [2] == [2];
    FinishStep(s', {1, 2}, {3, 4, 5}, {1}, 3, s'');
    assert {1, 2} + {3} == {1, 2, 3} && {3, 4, 5} - {3} == {4, 5} && [2] + [3] == [2, 3];
  }

  lemma FinishTwoMore(s: State, s': State, s'': State)
    requires s == State(Known({1, 2, 3}, {4, 5}, {1}), [2, 3], [], {})
    requires Next(s, Finish(0, [4]), s', CONFIG) && Next(s', Finish(0, [5]), s'', CONFIG)
    ensures s'' == State(Known({1, 2, 3, 4, 5}, {}, {1}), [2, 3, 4, 5], [], {})
  {
    hide Next, Known;
    FinishStep(s, {1, 2, 3}, {4, 5}, {1}, 4, s');
    assert {1, 2, 3} + {4} == {1, 2, 3, 4} && {4, 5} - {4} == {5} && [2, 3] + [4] == [2, 3, 4];
    FinishStep(s', {1, 2, 3, 4}, {5}, {1}, 5, s'');
    assert {1, 2, 3, 4} + {5} == {1, 2, 3, 4, 5} && {5} - {5} == {} && [2, 3, 4] + [5] == [2, 3, 4, 5];
  }

  lemma ReplayHandingOut(trace: seq<State>)
    requires Traces(trace, HandingOut(), CONFIG)
    requires trace[0] == State(Known({1, 2, 3, 4, 5}, {}, {1}), [2, 3, 4, 5], [], {})
    ensures trace[6] == State(Known({3, 4, 5}, {}, {}), [], [4, 5], {})
    ensures Obeyed(trace, HandingOut()) && OneConsumer(trace, HandingOut())
  {
    hide Next, Known, ObeysRules;
    var script := HandingOut();
    assert forall i :: 0 <= i < 6 ==> Next(trace[i], script[i], trace[i + 1], CONFIG);
    HandOutTwo(trace[0], trace[1], trace[2]);
    HandOutThree(trace[2], trace[3], trace[4]);
    HandOutRest(trace[4], trace[5], trace[6]);
    NoRuleFor(trace, script);
  }

  lemma HandOutTwo(s: State, s': State, s'': State)
    requires s == State(Known({1, 2, 3, 4, 5}, {}, {1}), [2, 3, 4, 5], [], {})
    requires Next(s, BeginReady, s', CONFIG) && Next(s', TakeReady(Some(1)), s'', CONFIG)
    ensures s'' == State(Known({1, 2, 3, 4, 5}, {}, {1}), [3, 4, 5], [2], {}) && s'.queue != []
  {
  }

  lemma HandOutThree(s: State, s': State, s'': State)
    requires s == State(Known({1, 2, 3, 4, 5}, {}, {1}), [3, 4, 5], [2], {})
    requires Next(s, BeginReady, s', CONFIG) && Next(s', TakeReady(Some(1)), s'', CONFIG)
    ensures s'' == State(Known({2, 3, 4, 5}, {}, {}), [4, 5], [3], {}) && s'.queue != []
  {
    hide Known, CutAll;
    CutBatchOfOne({1, 2, 3, 4, 5} + {}, 2);
    BeginStep(s, {1, 2, 3, 4, 5}, {}, {1}, {1}, s');
    assert {1, 2, 3, 4, 5} - {1} == {2, 3, 4, 5} && {1} - {1} == {};
  }

  lemma HandOutRest(s: State, s': State, s'': State)
    requires s == State(Known({2, 3, 4, 5}, {}, {}), [4, 5], [3], {})
    requires Next(s, BeginReady, s', CONFIG) && Next(s', TakeReady(None), s'', CONFIG)
    ensures s'' == State(Known({3, 4, 5}, {}, {}), [], [4, 5], {}) && s'.queue != []
  {
    hide Known, CutAll;
    CutBatchOfOne({2, 3, 4, 5} + {}, 3);
    BeginStep(s, {2, 3, 4, 5}, {}, {}, {2}, s');
    assert {2, 3, 4, 5} - {2} == {3, 4, 5} && {} - {2} == {};
  }

  lemma ReplayBringingBack(trace: seq<State>)
    requires Traces(trace, BringingBack(), CONFIG) && trace[0] == State(Known({3, 4, 5}, {}, {}), [], [4, 5], {})
    ensures trace[4] == State(Known({0, 1, 2, 3, 4, 5}, {}, {0, 2}), [1], [4, 5], {})
    ensures Obeyed(trace, BringingBack())
  {
    hide Next, Known, ObeysRules;
    var script := BringingBack();
    assert forall i :: 0 <= i < 4 ==> Next(trace[i], script[i], trace[i + 1], CONFIG);
    BringBackTwo(trace[0], trace[1], trace[2]);
    BringBackMore(trace[2], trace[3], trace[4]);
    NoRuleFor(trace, script);
  }

  lemma BringBackTwo(s: State, s': State, s'': State)
    requires s == State(Known({3, 4, 5}, {}, {}), [], [4, 5], {})
    requires Next(s, Declare(0), s', CONFIG) && Next(s', Register([1], false), s'', CONFIG)
    ensures s'' == State(Known({0, 3, 4, 5}, {1}, {0}), [], [4, 5], {})
    ensures ObeysRules(s.facts, Declare(0)) && ObeysRules(s'.facts, Register([1], false))
  {
    hide Next, Known, ObeysRules;
    DeclareStep(s, {3, 4, 5}, {}, {}, 0, s');
    assert {3, 4, 5} + {0} == {0, 3, 4, 5} && {} + {0} == {0};
    RegisterStep(s', {0, 3, 4, 5}, {}, {0}, [1], s'');
    assert {} + Elements([1]) == {1};
  }

  lemma BringBackMore(s: State, s': State, s'': State)
    requires s == State(Known({0, 3, 4, 5}, {1}, {0}), [], [4, 5], {})
    requires Next(s, Finish(0, [1]), s', CONFIG) && Next(s', Declare(2), s'', CONFIG)
    ensures s'' == State(Known({0, 1, 2, 3, 4, 5}, {}, {0, 2}), [1], [4, 5], {}) && ObeysRules(s'.facts, Declare(2))
  {
    hide Next, Known, ObeysRules;
    FinishStep(s, {0, 3, 4, 5}, {1}, {0}, 1, s');
    assert {0, 3, 4, 5} + {1} == {0, 1, 3, 4, 5} && {1} - {1} == {} && [] + [1] == [1];
    DeclareStep(s', {0, 1, 3, 4, 5}, {}, {0}, 2, s'');
    assert {0, 1, 3, 4, 5} + {2} == {0, 1, 2, 3, 4, 5} && {0} + {2} == {0, 2};
  }

  lemma ReplayLosing(trace: seq<State>)
    requires Traces(trace, Losing(), CONFIG)
    requires trace[0] == State(Known({0, 1, 2, 3, 4, 5}, {}, {0, 2}), [1], [4, 5], {})
    ensures trace[4].lost == {0} && Obeyed(trace, Losing()) && OneConsumer(trace, Losing())
  {
    hide Next, Known, ObeysRules;
    var script := Losing();
    assert forall i :: 0 <= i < 4 ==> Next(trace[i], script[i], trace[i + 1], CONFIG);
    PruneQueued(trace[0], trace[1], trace[2]);
    RegisterStep(trace[2], {3, 4, 5}, {}, {}, [0, 1], trace[3]);
    assert {} + Elements([0, 1]) == {0, 1};
    PruneUnready(trace[3], trace[4]);
    NoRuleFor(trace, script);
  }

  lemma PruneQueued(s: State, s': State, s'': State)
    requires s == State(Known({0, 1, 2, 3, 4, 5}, {}, {0, 2}), [1], [4, 5], {})
    requires Next(s, BeginReady, s', CONFIG) && Next(s', TakeReady(None), s'', CONFIG)
    ensures s'' == State(Known({3, 4, 5}, {}, {}), [], [1], {}) && s'.queue != []
  {
    hide Known, CutAll;
    CutWholeChain({0, 1, 2, 3, 4, 5} + {});
    BeginStep(s, {0, 1, 2, 3, 4, 5}, {}, {0, 2}, {0, 1, 2}, s');
    assert {0, 1, 2, 3, 4, 5} - {0, 1, 2} == {3, 4, 5} && {0, 2} - {0, 1, 2} == {};
  }

  lemma PruneUnready(s: State, s': State)
    requires s == State(Known({3, 4, 5}, {0, 1}, {}), [], [1], {}) && Next(s, BeginReady, s', CONFIG)
    ensures s'.lost == {0}
  {
    hide CutAll;
    assert s.facts.done.Keys == {0, 1, 3, 4, 5};
    CutBatchOfOne({0, 1, 3, 4, 5}, 1);
    assert {} + {0} * {0, 1} == {0};
  }

  /** Finishing, taking and pruning are not restricted. */
  lemma NoRuleFor(trace: seq<State>, script: seq<Command>)
    requires |trace| == |script| + 1
    ensures forall i :: 0 <= i < |script| && !script[i].Declare? && !script[i].Register? ==>
              ObeysRules(trace[i].facts, script[i])
  {
  }

  lemma Divide(trace: seq<State>, a: seq<Command>, b: seq<Command>)
    requires Traces(trace, a + b, CONFIG)
    ensures Traces(trace[..|a| + 1], a, CONFIG) && Traces(trace[|a|..], b, CONFIG)
  {
  }

  lemma JoinObeyed(trace: seq<State>, a: seq<Command>, b: seq<Command>)
    requires |trace| == |a + b| + 1 && Obeyed(trace[..|a| + 1], a) && Obeyed(trace[|a|..], b)
    ensures Obeyed(trace, a + b)
  {
  }

  lemma JoinConsumer(trace: seq<State>, a: seq<Command>, b: seq<Command>)
    requires |trace| == |a + b| + 1 && OneConsumer(trace[..|a| + 1], a) && OneConsumer(trace[|a|..], b)
    requires a == [] || !a[|a| - 1].BeginReady?
    ensures OneConsumer(trace, a + b)
  {
  }

  lemma Replay(trace: seq<State>)
    requires Traces(trace, Script(), CONFIG) && trace[0] == State(Known({}, {}, {}), [], [], {})
    ensures Obeyed(trace, Script()) && OneConsumer(trace, Script()) && trace[|Script()|].lost == {0}
  {
    hide Known, Obeyed, OneConsumer, Traces;
    assert |trace| == 21 by { TraceLength(trace, Script()); }
    var ab, abc := Preparing() + HandingOut(), Preparing() + HandingOut() + BringingBack();
    Divide(trace, abc, Losing());
    Divide(trace[..17], ab, BringingBack());
    Divide(trace[..17][..13], Preparing(), HandingOut());
    ReplayPreparing(trace[..17][..13][..7]);
    ReplayHandingOut(trace[..17][..13][6..]);
    ReplayBringingBack(trace[..17][12..]);
    ReplayLosing(trace[16..]);
    NoBegin(trace[..17][..13][..7], Preparing());
    NoBegin(trace[..17][12..], BringingBack());
    JoinObeyed(trace[..17][..13], Preparing(), HandingOut());
    JoinObeyed(trace[..17], ab, BringingBack());
    JoinObeyed(trace, abc, Losing());
    JoinConsumer(trace[..17][..13], Preparing(), HandingOut());
    JoinConsumer(trace[..17], ab, BringingBack());
    JoinConsumer(trace, abc, Losing());
  }

  lemma TraceLength(trace: seq<State>, script: seq<Command>)
    requires Traces(trace, script, CONFIG)
    ensures |trace| == |script| + 1
  {
  }

  lemma NoBegin(trace: seq<State>, script: seq<Command>)
    requires |trace| == |script| + 1 && NothingPruned(script)
    ensures OneConsumer(trace, script)
  {
  }

  /**
   With a pruning depth of 0 and one consumer at a time, a run that obeys both rules and prunes the
   unready task 0. Task 1 is pruned while it waits in the queue, handed out nevertheless, and then
   registered again below the new task 0.
   */
  method RegisteredAgainTooSoon() returns (otp: OrderedTaskPreparation, ghost trace: seq<State>)
    ensures otp.Valid() && 0 in otp.lost
    ensures Traces(trace, Script(), ConfigOf(otp)) && trace[|Script()|] == StateOf(otp)
    ensures trace[0] == State(Known({}, {}, {}), [], [], {})
    ensures Obeyed(trace, Script()) && OneConsumer(trace, Script())
  {
    hide Recorded, Next, Allowed, ObeysRules, QueuedInOrder, Output, Registering;
    hide OrderedTaskPreparation.Rooted;
    otp := new OrderedTaskPreparation({0}, Up, true, 0, Height);
    assert otp.Now() == Known({}, {}, {});
    ScriptGrounded();
    trace := Run(otp, Script());
    Replay(trace);
  }

  lemma ScriptGrounded()
    ensures forall i, t :: 0 <= i < |Script()| && t in Script()[i].Names() ==> Height(Up(t)) < Height(t)
  {
  }

  // -------------------------------------------------------------------------------------------
  // A run that leaves a task waiting for good
  // -------------------------------------------------------------------------------------------

  function TooLate(): seq<Command>
  {
    [Register([1], false), Finish(0, [1]), Declare(0)]
  }

  lemma FinishBeforeDeclared(s: State, s': State, s'': State)
    requires s == State(Known({}, {1}, {}), [], [], {})
    requires Next(s, Finish(0, [1]), s', CONFIG) && Next(s', Declare(0), s'', CONFIG)
    ensures s''.facts.Stuck(1) && 0 in s''.facts.declared
  {
    hide FinishedAll, Due;
    var f := s.facts;
    var finished :| NextFinish(s, 0, [1], finished, s');
    FinishedStep(f, 0, [1], 0);
    assert [1][..1] == [1];
    assert finished == 1;
    assert !f.(done := f.done[1 := {0}]).DepReady(1);
    assert s'.facts == f.(done := f.done[1 := {} + {0}]);
  }

  /**
   Task 1 is registered and finished before its dependency 0 is declared finished. It is complete
   and depends on a finished task, but nothing announces that to it any more.
   */
  method DeclaredTooLate() returns (otp: OrderedTaskPreparation)
    ensures otp.Valid() && otp.Now().Stuck(1) && otp.dependencyOf(1) in otp.declaredFinished
    ensures !otp.Now().Settled()
  {
    hide Recorded, Traces, AllAllowed, QueuedInOrder, Output, Registering, Known;
    hide OrderedTaskPreparation.Rooted;
    otp := new OrderedTaskPreparation({0}, Up, true, 0, Height);
    assert otp.Now() == Known({}, {}, {}) by { NothingKnown(otp); }
    ghost var trace := Run(otp, TooLate());
    LeftWaiting(trace);
  }

  lemma LeftWaiting(trace: seq<State>)
    requires Traces(trace, TooLate(), CONFIG) && trace[0] == State(Known({}, {}, {}), [], [], {})
    ensures trace[3].facts.Stuck(1) && 0 in trace[3].facts.declared
  {
    hide Next, Known;
    assert forall i :: 0 <= i < 3 ==> Next(trace[i], TooLate()[i], trace[i + 1], CONFIG);
    RegisterStep(trace[0], {}, {}, {}, [1], trace[1]);
    assert {} + Elements([1]) == {1};
    FinishBeforeDeclared(trace[1], trace[2], trace[3]);
  }

  lemma NothingKnown(otp: OrderedTaskPreparation)
    requires otp.tasks == map[] && otp.unready == {} && otp.declaredFinished == {} && otp.prereqs == {0}
    requires otp.dependencyOf == Up
    ensures otp.Now() == Known({}, {}, {})
  {
  }
}

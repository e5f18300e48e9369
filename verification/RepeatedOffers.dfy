/**
 Two runs of TaskQueue (trinity/_utils/datastructures.py) in which complete() finds the open queue
 full, although the pending tasks never exceed the limit: one offers a task twice in one add(), one
 offers a task that an add() which waits for room still holds.
 */
module RepeatedOffers {
  import opened Collections
  import opened TaskQueues

  const KEY: Task -> int := t => t
  const CONFIG := Config(2, KEY)

  // -------------------------------------------------------------------------------------------
  // What the events do here
  // -------------------------------------------------------------------------------------------

  lemma {:induction false} AlreadySorted(ts: seq<Task>)
    requires SortedBy(KEY, ts)
    ensures Sort(KEY, ts) == ts
  {
    if ts != [] {
      AlreadySorted(ts[1..]);
      assert ts == [ts[0]] + ts[1..];
    }
  }

  /** An add() that need not give up the lock. */
  lemma AddStep(s: State, id: Adder, ts: seq<Task>, k: nat, s': State)
    requires Next(s, Adds(id, ts), s', CONFIG) && !s.jammed && Accepts(s, id, ts) && SortedBy(KEY, ts)
    requires k <= |ts| && Fill(2, s.tasks, ts) == k && |s.open| + k <= 2 && (s.locked ==> Full(s, CONFIG))
    ensures s' == Insert(if k == |ts| then s else Waiting(s, id, ts[k..]), ts[..k])
  {
    AlreadySorted(ts);
    assert s.locked ==> Slots(s, ts, CONFIG) == 0 && s.tasks + Elements(ts[..0]) == s.tasks;
  }

  /** A woken add() that has one task left to insert, with more room than that. */
  lemma ResumeStep(s: State, id: Adder, t: Task, s': State)
    requires Next(s, AddResumes, s', CONFIG) && !s.jammed && s.woken
    requires s.waiters != [] && s.waiters[0] == id && id in s.adders && s.adders[id] == [t]
    requires |s.tasks| < 2 && |s.tasks + {t}| < 2 && |s.open| < 2
    ensures s' == Insert(s, [t]).(locked := false, woken := |s.waiters| > 1, waiters := s.waiters[1..],
                                  adders := s.adders - {id})
  {
    assert [t][..1] == [t] && Elements([t]) == {t};
    var s1 := Withdraw(s);
    assert [t][1..] == [];
    assert Fill(2, s1.tasks, [t]) == 1;
    assert Slots(s1, [t], CONFIG) == 1;
  }

  lemma OnlyCopies(batch: seq<Task>, open: multiset<Task>, t: Task)
    requires multiset(batch) <= open && |batch| == 1 && open == multiset{t, t}
    ensures batch == [t] && open - multiset(batch) == multiset{t}
  {
    var x := batch[0];
    assert batch == [x];
    assert multiset(batch)[x] == 1;
    assert x in open;
    assert x == t;
  }

  lemma Taken(s: State, batch: seq<Task>, s': State)
    requires TakesOut(s, batch, s', CONFIG)
    ensures multiset(batch) <= s.open
    ensures s' == s.(open := s.open - multiset(batch), held := s.held[s.nextId := CheckedOut(batch)],
                     nextId := s.nextId + 1)
  {
    hide MostUrgent;
  }

  /** One of two copies of the only task is checked out. */
  lemma OneTaken(s: State, t: Task, b: nat, s': State)
    requires Next(s, Gets(Some(1)), s', CONFIG) && !s.jammed && s.open == multiset{t, t} && s.nextId == b
    ensures s' == s.(open := multiset{t}, held := s.held[b := CheckedOut([t])], nextId := b + 1)
  {
    hide MostUrgent, TakesOut;
    var batch :| Satisfies(|batch|, s'.open, Some(1)) && TakesOut(s, batch, s', CONFIG);
    Taken(s, batch, s');
    assert |s.open - multiset(batch)| == 2 - |batch|;
    OnlyCopies(batch, s.open, t);
  }

  lemma OneFits(tasks: set<Task>, t: Task)
    requires |tasks| < 2
    ensures Fill(2, tasks, [t]) == 1 && [t][..1] == [t]
  {
    assert [t][1..] == [];
    assert Fill(2, tasks + {t}, []) == 0;
  }

  lemma InsertOne(s: State, t: Task)
    ensures Insert(s, [t]) == s.(tasks := s.tasks + {t}, open := s.open + multiset{t})
  {
    assert Elements([t]) == {t};
  }

  /** A second task goes into the place that the number of pending tasks shows as free. */
  lemma AnotherAdded(s: State, id: Adder, t: Task, u: Task, s': State)
    requires Next(s, Adds(id, [u]), s', CONFIG) && !s.jammed && t != u && id !in s.adders && !s.locked
    requires s.tasks == {t} && s.open == multiset{t}
    ensures s' == s.(tasks := {t, u}, open := multiset{t, u})
  {
    hide Next, Fill, Elements;
    OneFits({t}, u);
    AddStep(s, id, [u], 1, s');
    InsertOne(s, u);
    assert {t} + {u} == {t, u} && multiset{t} + multiset{u} == multiset{t, u};
  }

  lemma GiveBackStep(s: State, b: nat, t: Task, s': State)
    requires Next(s, Completes(b, []), s', CONFIG) && !s.jammed
    requires b in s.held && s.held[b] == CheckedOut([t]) && |s.open| == 2
    ensures s'.jammed
  {
    assert Elements<Task>([]) == {} && t in Elements([t]);
    assert t in Begin(s, b, {}).held[b].requeue;
  }

  /** With two open copies of the only task, what is checked out comes back to a full queue. */
  lemma GivenBack(s: State, t: Task, b: nat, id: Adder, u: Task, s1: State, s2: State, s3: State)
    requires !s.jammed && s.tasks == {t} && s.open == multiset{t, t} && s.nextId == b
    requires t != u && id !in s.adders && !s.locked
    requires Next(s, Gets(Some(1)), s1, CONFIG) && Next(s1, Adds(id, [u]), s2, CONFIG)
    requires Next(s2, Completes(b, []), s3, CONFIG)
    ensures !s2.jammed && |s2.tasks| == 2 && s3.jammed
  {
    hide Next;
    OneTaken(s, t, b, s1);
    AnotherAdded(s1, id, t, u, s2);
    GiveBackStep(s2, b, t, s3);
  }

  // -------------------------------------------------------------------------------------------
  // One call offers a task twice
  // -------------------------------------------------------------------------------------------

  const TWICE := [Adds(0, [1, 1]), Gets(Some(1)), Adds(1, [2]), Completes(0, [])]

  lemma JamAfterTwice(trace: seq<State>)
    requires Traces(trace, TWICE, CONFIG) && trace[0] == EMPTY
    ensures !trace[3].jammed && |trace[3].tasks| == 2 && trace[4].jammed
  {
    hide Next, Sound;
    assert Next(trace[0], TWICE[0], trace[1], CONFIG);
    assert Next(trace[1], TWICE[1], trace[2], CONFIG);
    assert Next(trace[2], TWICE[2], trace[3], CONFIG);
    assert Next(trace[3], TWICE[3], trace[4], CONFIG);
    TwiceAdded(trace[1]);
    GivenBack(trace[1], 1, 0, 1, 2, trace[2], trace[3], trace[4]);
  }

  lemma TwiceAdded(s: State)
    requires Next(EMPTY, Adds(0, [1, 1]), s, CONFIG)
    ensures s == EMPTY.(tasks := {1}, open := multiset{1, 1})
  {
    hide Next;
    assert [1, 1][1..] == [1] && [1][1..] == [];
    assert Fill(2, {1}, [1]) == 1;
    assert Fill(2, {}, [1, 1]) == 2;
    assert [1, 1][..2] == [1, 1] && Elements([1, 1]) == {1};
    AddStep(EMPTY, 0, [1, 1], 2, s);
  }

  /** Room for two: task 1 comes twice in one call, and its consumer gives it back to a full queue. */
  method FullAfterRepeat() returns (full: bool)
    ensures full
  {
    var q := new TaskQueue(2, KEY);
    ghost var trace := q.Run(TWICE);
    JamAfterTwice(trace);
    full := q.jammed;
  }

  // -------------------------------------------------------------------------------------------
  // Two calls offer the same task while the first of them waits
  // -------------------------------------------------------------------------------------------

  const OVERLAPPING :=
    [Adds(0, [1, 2, 3]), Adds(1, [3]), Gets(None), Completes(0, [1, 2]), AddResumes, AddResumes,
     Gets(Some(1)), Adds(2, [4]), Completes(1, [])]

  lemma TwoFit()
    ensures Fill(2, {}, [1, 2, 3]) == 2
  {
    assert [1, 2, 3][1..] == [2, 3] && [2, 3][1..] == [3];
    assert |{1, 2}| == 2 && {1} + {2} == {1, 2};
    assert Fill(2, {1, 2}, [3]) == 0;
    assert Fill(2, {1}, [2, 3]) == 1;
    assert {} + {1} == {1};
  }

  lemma InsertTwo(s: State)
    requires s.tasks == {} && s.open == multiset{}
    ensures Insert(s, [1, 2]) == s.(tasks := {1, 2}, open := multiset{1, 2})
  {
    assert Elements([1, 2]) == {1, 2};
  }

  lemma FirstWaits(s: State)
    requires Next(EMPTY, Adds(0, [1, 2, 3]), s, CONFIG)
    ensures s == EMPTY.(tasks := {1, 2}, open := multiset{1, 2}, locked := true, waiters := [0],
                        adders := map[0 := [3]])
  {
    hide Next, Fill, Elements;
    TwoFit();
    AddStep(EMPTY, 0, [1, 2, 3], 2, s);
    assert [1, 2, 3][..2] == [1, 2] && [1, 2, 3][2..] == [3];
    InsertTwo(Waiting(EMPTY, 0, [3]));
  }

  lemma SecondWaits(s: State, s': State)
    requires Next(s, Adds(1, [3]), s', CONFIG) && !s.jammed && s.locked
    requires s.waiters == [0] && s.adders == map[0 := [3]]
    requires s.tasks == {1, 2} && s.open == multiset{1, 2}
    ensures s' == s.(waiters := [0, 1], adders := map[0 := [3], 1 := [3]])
  {
    hide Next;
    assert [3][..0] == [] && [3][0..] == [3] && s.tasks + Elements<Task>([]) == s.tasks;
    AddStep(s, 1, [3], 0, s');
  }

  lemma AllTaken(s: State, s': State) returns (b: seq<Task>)
    requires Next(s, Gets(None), s', CONFIG) && !s.jammed && s.open == multiset{1, 2} && s.nextId == 0
    ensures Elements(b) == {1, 2}
    ensures s' == s.(open := multiset{}, held := s.held[0 := CheckedOut(b)], nextId := 1)
  {
    hide MostUrgent, Elements;
    b :| Satisfies(|b|, s'.open, None) && TakesOut(s, b, s', CONFIG);
    assert |s.open - multiset(b)| == 2 - |b|;
    AllOf(b, s.open);
    SameElements(b);
  }

  lemma AllOf(b: seq<Task>, open: multiset<Task>)
    requires multiset(b) <= open && |b| == |open|
    ensures multiset(b) == open && open - multiset(b) == multiset{}
  {
    assert open == multiset(b) + (open - multiset(b));
  }

  lemma SameElements(b: seq<Task>)
    requires multiset(b) == multiset{1, 2}
    ensures Elements(b) == {1, 2}
  {
    forall t
      ensures t in Elements(b) <==> t in {1, 2}
    {
      assert t in b <==> t in multiset(b);
    }
  }

  lemma AllCompleted(s: State, b: seq<Task>, s': State)
    requires Next(s, Completes(0, [1, 2]), s', CONFIG) && !s.jammed && s.locked && s.waiters == [0, 1]
    requires s.held == map[0 := CheckedOut(b)] && s.tasks == {1, 2} && Elements(b) == {1, 2}
    ensures s' == s.(tasks := {}, held := map[], locked := false, woken := true)
  {
    assert Elements([1, 2]) == {1, 2};
  }

  lemma BothInserted(s: State, s1: State, s2: State)
    requires Next(s, AddResumes, s1, CONFIG) && Next(s1, AddResumes, s2, CONFIG) && !s.jammed && s.woken
    requires s.tasks == {} && s.open == multiset{} && s.waiters == [0, 1] && s.adders == map[0 := [3], 1 := [3]]
    ensures s2 == s.(tasks := {3}, open := multiset{3, 3}, locked := false, woken := false, waiters := [],
                     adders := map[])
  {
    hide Next, Elements;
    ResumeStep(s, 0, 3, s1);
    InsertOne(s, 3);
    assert s1.tasks == {3} && s1.open == multiset{3} && s1.waiters == [1] && s1.adders == map[1 := [3]];
    ResumeStep(s1, 1, 3, s2);
    InsertOne(s1, 3);
    assert s2.tasks == {3} && s2.open == multiset{3, 3} && s2.waiters == [] && s2.adders == map[];
  }

  /** Up to here task 3 went in twice, although no call named a task twice or a pending one. */
  lemma TwoCopies(s1: State, s2: State, s3: State, s4: State, s5: State, s6: State)
    requires Next(EMPTY, Adds(0, [1, 2, 3]), s1, CONFIG) && Next(s1, Adds(1, [3]), s2, CONFIG)
    requires Next(s2, Gets(None), s3, CONFIG) && Next(s3, Completes(0, [1, 2]), s4, CONFIG)
    requires Next(s4, AddResumes, s5, CONFIG) && Next(s5, AddResumes, s6, CONFIG)
    ensures s6 == EMPTY.(tasks := {3}, open := multiset{3, 3}, nextId := 1)
  {
    hide Next, Elements;
    FirstWaits(s1);
    SecondWaits(s1, s2);
    var b := AllTaken(s2, s3);
    AllCompleted(s3, b, s4);
    BothInserted(s4, s5, s6);
  }

  lemma JamAfterOverlap(trace: seq<State>)
    requires Traces(trace, OVERLAPPING, CONFIG) && trace[0] == EMPTY
    ensures !trace[8].jammed && |trace[8].tasks| == 2 && trace[9].jammed
  {
    hide Next, Sound;
    forall i | 0 <= i < 9
      ensures Next(trace[i], OVERLAPPING[i], trace[i + 1], CONFIG)
    {
    }
    TwoCopies(trace[1], trace[2], trace[3], trace[4], trace[5], trace[6]);
    GivenBack(trace[6], 3, 1, 2, 4, trace[7], trace[8], trace[9]);
  }

  /** Room for two: both calls that wait insert task 3, and its consumer gives it back to a full queue. */
  method FullAfterOverlap() returns (full: bool)
    ensures full
  {
    var q := new TaskQueue(2, KEY);
    ghost var trace := q.Run(OVERLAPPING);
    JamAfterOverlap(trace);
    full := q.jammed;
  }
}

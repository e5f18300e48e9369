/**
 The bounded priority queue of pending tasks (trinity/_utils/datastructures.py, TaskQueue).

 The source is asynchronous. Each event is what one coroutine does between two suspension points; a
 run is any sequence of events. `asyncio.Lock` is modelled as it is implemented: a flag, a FIFO of
 waiters, and the first waiter being woken by a release but taking the lock only when it runs again.
 The open queue is a multiset: nothing keeps a task from being offered twice. A put() that finds it
 full has to wait; the source does not expect that, and the model stops there (`jammed`).
 */
module TaskQueues {
  import opened Collections

  type Task = int
  /** Names one call of add(). */
  type Adder = nat

  /** A batch handed out by get(), or one whose complete() call is under way. */
  datatype Held = CheckedOut(batch: seq<Task>) | Completing(requeue: set<Task>, done: set<Task>)
  {
    ghost function Tasks(): set<Task>
    {
      if CheckedOut? then Elements(batch) else requeue + done
    }
  }

  datatype Config = Config(maxsize: int, key: Task -> int)

  datatype State = State(
    /** All tasks that were added and not completed. */
    tasks: set<Task>,
    open: multiset<Task>,
    held: map<nat, Held>,
    nextId: nat,
    /** The full-lock: its flag, its waiting add() calls, and whether the first of them was woken. */
    locked: bool,
    waiters: seq<Adder>,
    woken: bool,
    /** What the waiting add() calls have left to insert. */
    adders: map<Adder, seq<Task>>,
    jammed: bool)

  const EMPTY := State({}, multiset{}, map[], 0, false, [], false, map[], false)

  datatype Event =
    | Adds(id: Adder, ts: seq<Task>)
    | AddResumes
    | Gets(maxResults: Option<int>)
    | GetsNow(maxResults: Option<int>)
    | Completes(id: nat, completed: seq<Task>)
    | CompleteResumes(id: nat)

  // -------------------------------------------------------------------------------------------
  // What each event does
  // -------------------------------------------------------------------------------------------

  /** The batch is in priority order and everything in it is at least as urgent as what stays. */
  ghost predicate MostUrgent(key: Task -> int, batch: seq<Task>, left: multiset<Task>)
  {
    SortedBy(key, batch) && forall t, u :: t in batch && u in left ==> key(t) <= key(u)
  }

  lemma NothingPopped(key: Task -> int, left: multiset<Task>)
    ensures MostUrgent(key, [], left)
  {
  }

  lemma PopOne(key: Task -> int, batch: seq<Task>, left: multiset<Task>, t: Task)
    requires MostUrgent(key, batch, left) && t in left && forall u :: u in left ==> key(t) <= key(u)
    ensures MostUrgent(key, batch + [t], left - multiset{t})
  {
    forall x | x in batch
      ensures key(x) <= key(t)
    {
    }
    var longer := batch + [t];
    forall i, j | 0 <= i < j < |longer|
      ensures key(longer[i]) <= key(longer[j])
    {
      var x := longer[i];
      assert x in batch;
    }
  }

  lemma Nonempty(s: multiset<Task>)
    ensures s == multiset{} || exists t :: t in s
  {
    if forall t :: t !in s {
      assert s == multiset{};
    }
  }

  lemma {:induction false} LeastExists(key: Task -> int, s: multiset<Task>) returns (t: Task)
    requires s != multiset{}
    ensures t in s && forall u :: u in s ==> key(t) <= key(u)
    decreases |s|
  {
    Nonempty(s);
    t :| t in s;
    var rest := s - multiset{t};
    if rest != multiset{} {
      var t' := LeastExists(key, rest);
      if key(t') < key(t) {
        t := t';
      }
      assert forall u :: u in s ==> u == t || u in rest || u in s - rest;
    }
  }

  /** How many of the tasks go in: all, or as many as bring the pending tasks to the limit. */
  ghost function Fill(maxsize: int, tasks: set<Task>, ts: seq<Task>): (k: nat)
    ensures k <= |ts|
    decreases |ts|
  {
    if ts == [] || (maxsize > 0 && |tasks| >= maxsize) then 0 else 1 + Fill(maxsize, tasks + {ts[0]}, ts[1..])
  }

  /** How many tasks the first round takes: as many as there are open slots. */
  ghost function Slots(s: State, ts: seq<Task>, c: Config): (n: nat)
    ensures n <= |ts|
  {
    if c.maxsize <= 0 || |s.tasks| + |ts| <= c.maxsize then |ts|
    else if |s.tasks| > c.maxsize then 0 else c.maxsize - |s.tasks|
  }

  /** The full-lock is given up when there is room, and the first waiter is woken. */
  ghost function Freed(s: State, c: Config): (s': State)
    ensures s' == s.(locked := s'.locked, woken := s'.woken)
  {
    if s.locked && |s.tasks| < c.maxsize then s.(locked := false, woken := s.waiters != []) else s
  }

  ghost function Insert(s: State, ts: seq<Task>): State
  {
    s.(tasks := s.tasks + Elements(ts), open := s.open + multiset(ts))
  }

  /** An add() call that holds the lock gives it up after its first round if there is room then. */
  ghost function Relocked(s: State, ts: seq<Task>, c: Config): State
  {
    var s1 := Freed(Insert(s, ts[..Slots(s, ts, c)]), c);
    s.(locked := s1.locked, woken := s1.woken)
  }

  /**
   An add() call with ts left to insert runs until everything is in or it waits for the lock, which
   a call that finds it free and nobody waiting takes first.
   */
  ghost predicate Proceeds(s: State, id: Adder, ts: seq<Task>, s': State, c: Config)
  {
    var k := Fill(c.maxsize, s.tasks, ts);
    if c.maxsize > 0 && |s.open| + k > c.maxsize then s'.jammed
    else
      var s1 := Relocked(s, ts, c);
      s' == Insert(if k == |ts| then s1 else Waiting(s1, id, ts[k..]), ts[..k])
  }

  ghost function Waiting(s: State, id: Adder, ts: seq<Task>): State
  {
    s.(locked := s.locked || s.waiters == [], waiters := s.waiters + [id], adders := s.adders[id := ts])
  }

  ghost predicate TakesOut(s: State, batch: seq<Task>, s': State, c: Config)
  {
    && multiset(batch) <= s.open && MostUrgent(c.key, batch, s.open - multiset(batch))
    && s' == s.(open := s.open - multiset(batch), held := s.held[s.nextId := CheckedOut(batch)], nextId := s.nextId + 1)
  }

  /** A complete() call puts one more abandoned task back, or finishes. */
  ghost predicate Completion(s: State, id: nat, s': State, c: Config)
    requires id in s.held && s.held[id].Completing?
  {
    var h := s.held[id];
    if h.requeue == {} then
      s' == Freed(s.(tasks := s.tasks - h.done, held := s.held - {id}), c)
    else if c.maxsize > 0 && |s.open| >= c.maxsize then s'.jammed
    else exists t :: t in h.requeue && s' == PutBack(s, id, t)
  }

  ghost function PutBack(s: State, id: nat, t: Task): State
    requires id in s.held && s.held[id].Completing?
  {
    s.(open := s.open + multiset{t}, held := s.held[id := Completing(s.held[id].requeue - {t}, s.held[id].done)])
  }

  /** What an event does; one that cannot happen or is refused does nothing. */
  ghost predicate Next(s: State, e: Event, s': State, c: Config)
  {
    if s.jammed then s' == s
    else
      match e
      case Adds(id, ts) =>
        if Accepts(s, id, ts) then Proceeds(s, id, Sort(c.key, ts), s', c) else s' == s
      case AddResumes =>
        if !s.woken || s.waiters == [] || s.waiters[0] !in s.adders then s' == s
        else Proceeds(Withdraw(s), s.waiters[0], s.adders[s.waiters[0]], s', c)
      case Gets(maxResults) =>
        if s.open == multiset{} || (maxResults.Some? && maxResults.value < 1) then s' == s
        else exists batch :: Satisfies(|batch|, s'.open, maxResults) && TakesOut(s, batch, s', c)
      case GetsNow(maxResults) =>
        if s.open == multiset{} then s' == s
        else exists batch :: Satisfies(|batch|, s'.open, maxResults) && TakesOut(s, batch, s', c)
      case Completes(id, completed) =>
        if id !in s.held || s.held[id].Completing? || !(Elements(completed) <= s.held[id].Tasks()) then s' == s
        else Completion(Begin(s, id, Elements(completed)), id, s', c)
      case CompleteResumes(id) =>
        if id !in s.held || s.held[id].CheckedOut? then s' == s else Completion(s, id, s', c)
  }

  /** The first waiter takes the lock and leaves the queue of waiters with its remaining tasks. */
  ghost function Withdraw(s: State): State
    requires s.waiters != []
  {
    s.(locked := true, woken := false, waiters := s.waiters[1..], adders := s.adders - {s.waiters[0]})
  }

  /** So many tasks are what was asked for, or fewer because nothing is left; below one nothing is asked for. */
  ghost predicate Satisfies(n: nat, left: multiset<Task>, maxResults: Option<int>)
  {
    && (left == multiset{} || (maxResults.Some? && n >= maxResults.value))
    && (maxResults.Some? ==> n <= maxResults.value || n == 0)
  }

  ghost function Begin(s: State, id: nat, done: set<Task>): State
    requires id in s.held
  {
    s.(held := s.held[id := Completing(s.held[id].Tasks() - done, done)])
  }

  // -------------------------------------------------------------------------------------------
  // What holds whatever is offered
  // -------------------------------------------------------------------------------------------

  ghost predicate Full(s: State, c: Config)
  {
    c.maxsize > 0 && |s.tasks| >= c.maxsize
  }

  /** The invariant while an add() call that took the lock is running. */
  ghost predicate Steady(s: State, c: Config)
  {
    && (forall b :: b in s.held ==> b < s.nextId)
    && (c.maxsize > 0 ==> |s.tasks| <= c.maxsize && |s.open| <= c.maxsize)
    && (s.locked ==> c.maxsize > 0)
    && NoDuplicates(s.waiters) && Elements(s.waiters) == s.adders.Keys
    && (forall a :: a in s.adders ==> s.adders[a] != [])
    && (s.woken ==> s.waiters != [] && !s.locked)
    && (s.waiters != [] ==> c.maxsize > 0 && (s.locked || s.woken))
  }

  /** The invariant at every suspension point. */
  ghost predicate Sound(s: State, c: Config)
  {
    Steady(s, c) && (s.locked ==> Full(s, c))
  }

  /** No lost wake-up: when there is room, some add() call that waits for it has been woken. */
  lemma RoomMeansWoken(s: State, c: Config)
    requires Sound(s, c) && s.adders != map[] && |s.tasks| < c.maxsize
    ensures s.woken && s.waiters != []
  {
    assert s.adders.Keys != {};
  }

  // -------------------------------------------------------------------------------------------
  // What holds as long as no task is offered twice at once
  // -------------------------------------------------------------------------------------------

  ghost function HeldTasks(held: map<nat, Held>): set<Task>
  {
    set b, t | b in held && t in held[b].Tasks() :: t
  }

  ghost function Open(open: multiset<Task>): set<Task>
  {
    set t | t in open
  }

  ghost predicate Single(open: multiset<Task>)
  {
    forall t :: t in open ==> open[t] == 1
  }

  /** The pending tasks are the disjoint union of the open ones and the held batches. */
  ghost predicate Placed(tasks: set<Task>, open: set<Task>, held: map<nat, Held>)
  {
    && tasks == open + HeldTasks(held)
    && (forall b :: b in held ==> held[b].Tasks() !! open)
    && (forall b, c :: b in held && c in held && b != c ==> held[b].Tasks() !! held[c].Tasks())
    && (forall b :: b in held && held[b].CheckedOut? ==> NoDuplicates(held[b].batch))
    && (forall b :: b in held && held[b].Completing? ==> held[b].requeue !! held[b].done)
  }

  /** What the waiting add() calls hold: no task twice anywhere, and none that is pending. */
  ghost predicate Offered(tasks: set<Task>, adders: map<Adder, seq<Task>>)
  {
    && (forall a :: a in adders ==> NoDuplicates(adders[a]) && Elements(adders[a]) !! tasks)
    && (forall a, b :: a in adders && b in adders && a != b ==> Elements(adders[a]) !! Elements(adders[b]))
  }

  /** Every pending task has exactly one copy, open or in one batch. */
  ghost predicate Tidy(s: State)
  {
    && Single(s.open)
    && Placed(s.tasks, Open(s.open), s.held) && Offered(s.tasks, s.adders)
  }

  /** An add() call that is not refused names no task twice and none that a waiting call still holds. */
  ghost predicate Separate(s: State, e: Event)
  {
    e.Adds? && Accepts(s, e.id, e.ts) ==> NoDuplicates(e.ts) && Unclaimed(s.adders, Elements(e.ts))
  }

  ghost predicate Accepts(s: State, id: Adder, ts: seq<Task>)
  {
    id !in s.adders && forall t :: t in ts ==> t !in s.tasks
  }

  ghost predicate Unclaimed(adders: map<Adder, seq<Task>>, ts: set<Task>)
  {
    forall a :: a in adders ==> Elements(adders[a]) !! ts
  }

  lemma InOnePlace(s: State, t: Task)
    requires Tidy(s) && t in s.tasks
    ensures s.open[t] <= 1
    ensures t in s.open <==> forall b :: b in s.held ==> t !in s.held[b].Tasks()
    ensures t !in s.open ==>
              exists b :: b in s.held && t in s.held[b].Tasks() &&
                forall c :: c in s.held && t in s.held[c].Tasks() ==> c == b
  {
    if t !in s.open {
      assert t in HeldTasks(s.held);
      var b :| b in s.held && t in s.held[b].Tasks();
    }
  }

  lemma SingleSize(open: multiset<Task>)
    requires Single(open)
    ensures |open| == |Open(open)|
  {
    var once := multiset(Open(open));
    forall t
      ensures open[t] == once[t]
    {
      assert t in open <==> t in Open(open);
    }
    assert open == once;
  }

  lemma OpenCount(s: State)
    requires Tidy(s)
    ensures |s.open| == |Open(s.open)| <= |s.tasks|
  {
    SingleSize(s.open);
    SubsetSize(Open(s.open), s.tasks);
  }

  /** A round keeps the open copies and the pending tasks in step if and only if it repeats no task. */
  lemma InsertKeepsSurplus(s: State, ts: seq<Task>)
    ensures var s' := Insert(s, ts);
            && |s'.open| - |s'.tasks| >= |s.open| - |s.tasks|
            && (|s'.open| - |s'.tasks| == |s.open| - |s.tasks| <==> NoDuplicates(ts) && Elements(ts) !! s.tasks)
  {
    SizeOfElements(ts);
    var news := Elements(ts);
    assert s.tasks + news == s.tasks + (news - s.tasks);
    assert |s.tasks + (news - s.tasks)| == |s.tasks| + |news - s.tasks|;
    SubsetSize(news - s.tasks, news);
    assert news !! s.tasks <==> news - s.tasks == news;
  }

  // -------------------------------------------------------------------------------------------
  // Filling up
  // -------------------------------------------------------------------------------------------

  /** The prefix that goes in is the shortest one that fills the queue, or everything. */
  lemma {:induction false} FillIs(maxsize: int, tasks: set<Task>, ts: seq<Task>)
    ensures var k := Fill(maxsize, tasks, ts);
            && (k == |ts| || (maxsize > 0 && |tasks + Elements(ts[..k])| >= maxsize))
            && (maxsize > 0 ==> forall j :: 0 <= j < k ==> |tasks + Elements(ts[..j])| < maxsize)
    decreases |ts|
  {
    hide Elements;
    EmptyElements<Task>();
    assert ts[..0] == [] && tasks + {} == tasks;
    if ts != [] && (maxsize <= 0 || |tasks| < maxsize) {
      FillIs(maxsize, tasks + {ts[0]}, ts[1..]);
      forall j | 1 <= j <= |ts|
        ensures tasks + Elements(ts[..j]) == tasks + {ts[0]} + Elements(ts[1..][..j - 1])
      {
        FirstThenRest(tasks, ts, j);
      }
    }
  }

  /** A stretch of tasks that is no longer than the room there is goes in as a whole. */
  lemma {:induction false} FillSplit(maxsize: int, tasks: set<Task>, ts: seq<Task>, m: nat)
    requires m <= |ts| && (maxsize > 0 ==> |tasks| + m <= maxsize)
    ensures Fill(maxsize, tasks, ts) == m + Fill(maxsize, tasks + Elements(ts[..m]), ts[m..])
    ensures maxsize > 0 ==> |tasks + Elements(ts[..m])| <= maxsize
    decreases m
  {
    hide Elements;
    if m == 0 {
      EmptyElements<Task>();
      assert ts[m..] == ts && ts[..m] == [] && tasks + {} == tasks;
    } else {
      FillSplit(maxsize, tasks + {ts[0]}, ts[1..], m - 1);
      assert ts[1..][m - 1..] == ts[m..];
      FirstThenRest(tasks, ts, m);
    }
  }

  lemma FirstThenRest(tasks: set<Task>, ts: seq<Task>, m: nat)
    requires 0 < m <= |ts|
    ensures tasks + {ts[0]} + Elements(ts[1..][..m - 1]) == tasks + Elements(ts[..m])
  {
    assert ts[..m] == [ts[0]] + ts[1..][..m - 1];
    ElementsConcat([ts[0]], ts[1..][..m - 1]);
    assert Elements([ts[0]]) == {ts[0]};
  }

  lemma {:induction false} FillDistinct(maxsize: int, tasks: set<Task>, ts: seq<Task>)
    requires NoDuplicates(ts) && Elements(ts) !! tasks && (maxsize > 0 ==> |tasks| <= maxsize)
    ensures Fill(maxsize, tasks, ts)
            == if maxsize <= 0 || |tasks| + |ts| <= maxsize then |ts| else maxsize - |tasks|
    decreases |ts|
  {
    if ts != [] && (maxsize <= 0 || |tasks| < maxsize) {
      assert ts == [ts[0]] + ts[1..];
      FillDistinct(maxsize, tasks + {ts[0]}, ts[1..]);
    }
  }

  // -------------------------------------------------------------------------------------------
  // Every event keeps the tasks tidy if and only if the offer is separate
  // -------------------------------------------------------------------------------------------

  lemma Outcome(s: State, id: Adder, ts: seq<Task>, s': State, c: Config)
    requires Proceeds(s, id, ts, s', c) && !s.jammed
    ensures var k := Fill(c.maxsize, s.tasks, ts);
            && (s'.jammed <==> c.maxsize > 0 && |s.open| + k > c.maxsize)
            && (!s'.jammed ==> s'.tasks == s.tasks + Elements(ts[..k]) && s'.open == s.open + multiset(ts[..k]))
            && (!s'.jammed ==> s'.held == s.held)
            && (!s'.jammed ==> s'.adders == if k == |ts| then s.adders else s.adders[id := ts[k..]])
  {
    hide Freed, Elements;
  }

  lemma Inserting(s: State, id: Adder, ts: seq<Task>, s': State, c: Config)
    requires Tidy(s) && !s.jammed && id !in s.adders && Proceeds(s, id, ts, s', c)
    requires c.maxsize > 0 ==> |s.tasks| <= c.maxsize
    requires NoDuplicates(ts) && Elements(ts) !! s.tasks && Unclaimed(s.adders, Elements(ts))
    ensures !s'.jammed && Tidy(s')
  {
    hide Placed, Offered, Unclaimed, Proceeds;
    var k := Fill(c.maxsize, s.tasks, ts);
    FillDistinct(c.maxsize, s.tasks, ts);
    OpenCount(s);
    Outcome(s, id, ts, s', c);
    PlaceMore(s.tasks, Open(s.open), s.held, Elements(ts[..k]));
    OpenMore(s.open, ts[..k]);
    OfferRest(s.tasks, s.adders, id, ts, k);
  }

  lemma OpenMore(open: multiset<Task>, ts: seq<Task>)
    requires Single(open) && NoDuplicates(ts) && Elements(ts) !! Open(open)
    ensures Single(open + multiset(ts)) && Open(open + multiset(ts)) == Open(open) + Elements(ts)
  {
    var more := multiset(ts);
    NoDuplicatesCount(ts);
    assert forall t :: t in ts <==> t in more;
    forall t | t in open + more
      ensures (open + more)[t] == 1
    {
      assert t in open ==> t in Open(open) && t !in Elements(ts);
      assert more[t] <= 1;
    }
  }

  lemma PlaceMore(tasks: set<Task>, open: set<Task>, held: map<nat, Held>, more: set<Task>)
    requires Placed(tasks, open, held) && more !! tasks
    ensures Placed(tasks + more, open + more, held) && open <= tasks
  {
    forall b, t | b in held && t in held[b].Tasks()
      ensures t in tasks
    {
      assert t in HeldTasks(held);
    }
  }

  lemma OfferRest(tasks: set<Task>, adders: map<Adder, seq<Task>>, id: Adder, ts: seq<Task>, k: nat)
    requires Offered(tasks, adders) && id !in adders && k <= |ts|
    requires NoDuplicates(ts) && Elements(ts) !! tasks && Unclaimed(adders, Elements(ts))
    ensures Offered(tasks + Elements(ts[..k]), if k == |ts| then adders else adders[id := ts[k..]])
  {
  }

  /** If all is tidy after an insertion then nothing was offered twice. */
  lemma Repeating(s: State, id: Adder, ts: seq<Task>, s': State, c: Config)
    requires !s.jammed && id !in s.adders && Proceeds(s, id, ts, s', c) && !s'.jammed && Tidy(s')
    ensures NoDuplicates(ts) && Unclaimed(s.adders, Elements(ts))
  {
    hide Placed, Offered, NoDuplicates, Unclaimed, Proceeds;
    var k := Fill(c.maxsize, s.tasks, ts);
    Outcome(s, id, ts, s', c);
    assert ts == ts[..k] + ts[k..];
    SingleParts(s.open, ts[..k]);
    Reclaimed(s'.tasks, s.adders, s'.adders, id, ts, k);
  }

  lemma SingleParts(open: multiset<Task>, ts: seq<Task>)
    requires Single(open + multiset(ts))
    ensures NoDuplicates(ts)
  {
    NoDuplicatesCount(ts);
    forall t
      ensures multiset(ts)[t] <= 1
    {
      assert t in open + multiset(ts) || multiset(ts)[t] == 0;
    }
  }

  lemma Reclaimed(tasks: set<Task>, adders: map<Adder, seq<Task>>, adders': map<Adder, seq<Task>>, id: Adder,
                  ts: seq<Task>, k: nat)
    requires Offered(tasks, adders') && k <= |ts| && id !in adders && Elements(ts[..k]) <= tasks
    requires NoDuplicates(ts[..k]) && adders' == if k == |ts| then adders else adders[id := ts[k..]]
    ensures NoDuplicates(ts) && Unclaimed(adders, Elements(ts))
  {
    assert ts == ts[..k] + ts[k..];
    ElementsConcat(ts[..k], ts[k..]);
    if k < |ts| {
      assert adders'[id] == ts[k..];
      assert forall t :: t in ts[..k] ==> t in Elements(ts[..k]);
      assert forall t :: t in ts[k..] ==> t in Elements(ts[k..]);
      ConcatNoDuplicates(ts[..k], ts[k..]);
    }
    assert forall a :: a in adders ==> a in adders' && adders'[a] == adders[a];
  }

  lemma Withdrawing(s: State)
    requires Tidy(s) && s.waiters != [] && s.waiters[0] in s.adders
    ensures Tidy(Withdraw(s))
    ensures var ts := s.adders[s.waiters[0]];
            NoDuplicates(ts) && Elements(ts) !! s.tasks && Unclaimed(Withdraw(s).adders, Elements(ts))
  {
  }

  lemma CheckingOut(s: State, batch: seq<Task>, s': State, c: Config)
    requires Sound(s, c) && Tidy(s) && !s.jammed && TakesOut(s, batch, s', c)
    ensures !s'.jammed && Tidy(s')
  {
    hide Placed, Offered, MostUrgent;
    NoDuplicatesCount(batch);
    assert forall t :: multiset(batch)[t] <= s.open[t] <= 1;
    assert forall t :: t in batch <==> t in multiset(batch);
    assert Open(s'.open) == Open(s.open) - Elements(batch);
    PlaceBatch(s.tasks, Open(s.open), s.held, s.nextId, batch);
  }

  lemma PlaceBatch(tasks: set<Task>, open: set<Task>, held: map<nat, Held>, id: nat, batch: seq<Task>)
    requires Placed(tasks, open, held) && id !in held && NoDuplicates(batch) && Elements(batch) <= open
    ensures Placed(tasks, open - Elements(batch), held[id := CheckedOut(batch)])
  {
    var held' := held[id := CheckedOut(batch)];
    assert forall b :: b in held ==> held'[b] == held[b];
    assert held'[id].Tasks() == Elements(batch);
    forall t
      ensures t in HeldTasks(held') <==> t in HeldTasks(held) || t in Elements(batch)
    {
      assert t in HeldTasks(held) ==> exists b :: b in held' && t in held'[b].Tasks();
    }
  }

  /** A batch changes shape without gaining or losing tasks. */
  lemma Reshape(tasks: set<Task>, open: set<Task>, held: map<nat, Held>, id: nat, h: Held)
    requires Placed(tasks, open, held) && id in held && h.Completing? && h.requeue !! h.done
    requires h.Tasks() == held[id].Tasks()
    ensures Placed(tasks, open, held[id := h])
  {
    var held' := held[id := h];
    forall t
      ensures t in HeldTasks(held') <==> t in HeldTasks(held)
    {
      assert forall b :: b in held ==> held'[b].Tasks() == held[b].Tasks();
    }
  }

  lemma Completions(s: State, id: nat, s': State, c: Config)
    requires Sound(s, c) && Tidy(s) && !s.jammed && id in s.held && s.held[id].Completing? && Completion(s, id, s', c)
    ensures !s'.jammed && Tidy(s')
  {
    hide Placed, Offered, Freed;
    var h := s.held[id];
    if h.requeue == {} {
      Discharge(s.tasks, Open(s.open), s.held, id);
      FewerTasks(s.tasks, s.adders, h.done);
      assert h.Tasks() == h.done;
    } else {
      var t := Pick(h.requeue);
      OpenHasRoom(s, id, t);
      var u :| u in h.requeue && s' == PutBack(s, id, u);
      Requeue(s.tasks, Open(s.open), s.held, id, u);
      assert Open(s'.open) == Open(s.open) + {u};
    }
  }

  /** While a task is out, the open queue has a free place for it. */
  lemma OpenHasRoom(s: State, id: nat, t: Task)
    requires Tidy(s) && id in s.held && t in s.held[id].Tasks()
    ensures |s.open| < |s.tasks|
  {
    assert t in HeldTasks(s.held) && t in s.tasks && t !in Open(s.open);
    SingleSize(s.open);
    SubsetSize(Open(s.open), s.tasks - {t});
  }

  lemma FewerTasks(tasks: set<Task>, adders: map<Adder, seq<Task>>, done: set<Task>)
    requires Offered(tasks, adders)
    ensures Offered(tasks - done, adders)
  {
  }

  lemma Requeue(tasks: set<Task>, open: set<Task>, held: map<nat, Held>, id: nat, t: Task)
    requires Placed(tasks, open, held) && id in held && held[id].Completing? && t in held[id].requeue
    ensures var h := held[id]; Placed(tasks, open + {t}, held[id := Completing(h.requeue - {t}, h.done)])
    ensures t in tasks && t !in open
  {
    var h := held[id];
    var h' := Completing(h.requeue - {t}, h.done);
    var held' := held[id := h'];
    assert t in held[id].Tasks() && t in HeldTasks(held);
    assert h'.Tasks() == h.Tasks() - {t};
    forall b | b in held && b != id
      ensures held'[b].Tasks() == held[b].Tasks() && t !in held[b].Tasks()
    {
    }
    forall u
      ensures u in HeldTasks(held') <==> u in HeldTasks(held) && u != t
    {
      if u in HeldTasks(held) && u != t {
        var b :| b in held && u in held[b].Tasks();
        assert u in held'[b].Tasks();
      }
    }
    assert tasks == (open + {t}) + HeldTasks(held');
  }

  lemma Discharge(tasks: set<Task>, open: set<Task>, held: map<nat, Held>, id: nat)
    requires Placed(tasks, open, held) && id in held
    ensures Placed(tasks - held[id].Tasks(), open, held - {id}) && held[id].Tasks() <= tasks
  {
    var held' := held - {id};
    forall u
      ensures u in HeldTasks(held') <==> u in HeldTasks(held) && u !in held[id].Tasks()
    {
      if u in HeldTasks(held) && u !in held[id].Tasks() {
        var b :| b in held && u in held[b].Tasks();
        assert b in held' && u in held'[b].Tasks();
      }
    }
    forall u | u in held[id].Tasks()
      ensures u in HeldTasks(held)
    {
    }
  }

  /** An event keeps the tasks tidy if and only if the offer it makes, if any, is separate. */
  lemma TidyStep(s: State, e: Event, s': State, c: Config)
    requires Sound(s, c) && Tidy(s) && !s.jammed && Next(s, e, s', c)
    ensures !s'.jammed && Tidy(s') <==> Separate(s, e)
  {
    hide Tidy, Proceeds, TakesOut, Completion, Unclaimed;
    match e
    case Adds(id, ts) =>
      if Accepts(s, id, ts) {
        Offering(s, id, ts, s', c);
      }
    case AddResumes =>
      if s.woken && s.waiters != [] && s.waiters[0] in s.adders {
        Withdrawing(s);
        Inserting(Withdraw(s), s.waiters[0], s.adders[s.waiters[0]], s', c);
      }
    case Gets(maxResults) =>
      if s' != s {
        var batch :| TakesOut(s, batch, s', c);
        CheckingOut(s, batch, s', c);
      }
    case GetsNow(maxResults) =>
      if s' != s {
        var batch :| TakesOut(s, batch, s', c);
        CheckingOut(s, batch, s', c);
      }
    case Completes(id, completed) =>
      if id in s.held && s.held[id].CheckedOut? && Elements(completed) <= s.held[id].Tasks() {
        Beginning(s, id, Elements(completed), c);
        Completions(Begin(s, id, Elements(completed)), id, s', c);
      }
    case CompleteResumes(id) =>
      if id in s.held && s.held[id].Completing? {
        Completions(s, id, s', c);
      }
  }

  lemma Offering(s: State, id: Adder, ts: seq<Task>, s': State, c: Config)
    requires Sound(s, c) && Tidy(s) && !s.jammed && Accepts(s, id, ts) && Proceeds(s, id, Sort(c.key, ts), s', c)
    ensures !s'.jammed && Tidy(s') <==> NoDuplicates(ts) && Unclaimed(s.adders, Elements(ts))
  {
    hide Tidy, Proceeds, Unclaimed;
    SortKeepsElements(c.key, ts);
    forall t | t in Elements(ts)
      ensures t !in s.tasks
    {
    }
    if NoDuplicates(ts) && Unclaimed(s.adders, Elements(ts)) {
      Inserting(s, id, Sort(c.key, ts), s', c);
    }
    if !s'.jammed && Tidy(s') {
      Repeating(s, id, Sort(c.key, ts), s', c);
    }
  }

  lemma Beginning(s: State, id: nat, done: set<Task>, c: Config)
    requires Sound(s, c) && Tidy(s) && id in s.held && s.held[id].CheckedOut? && done <= s.held[id].Tasks()
    ensures Sound(Begin(s, id, done), c) && Tidy(Begin(s, id, done))
  {
    hide Placed, Offered;
    Reshape(s.tasks, Open(s.open), s.held, id, Completing(s.held[id].Tasks() - done, done));
  }

  // -------------------------------------------------------------------------------------------
  // Runs
  // -------------------------------------------------------------------------------------------

  ghost predicate Traces(trace: seq<State>, events: seq<Event>, c: Config)
  {
    && |trace| == |events| + 1
    && (forall i :: 0 <= i < |trace| ==> trace[i].jammed || Sound(trace[i], c))
    && (forall i :: 0 <= i < |events| ==> Next(trace[i], events[i], trace[i + 1], c))
  }

  ghost predicate AllSeparate(trace: seq<State>, events: seq<Event>)
    requires |trace| > |events|
  {
    forall i :: 0 <= i < |events| ==> Separate(trace[i], events[i])
  }

  ghost predicate AllTidy(trace: seq<State>)
  {
    forall i :: 0 <= i < |trace| ==> !trace[i].jammed && Tidy(trace[i])
  }

  /** The tasks stay tidy throughout a run if and only if every offer in it is separate. */
  lemma {:induction false} TidyRuns(trace: seq<State>, events: seq<Event>, c: Config)
    requires Traces(trace, events, c) && Tidy(trace[0]) && !trace[0].jammed
    ensures AllTidy(trace) <==> AllSeparate(trace, events)
    decreases |events|
  {
    hide Tidy, Sound, Next, Separate;
    if events != [] {
      var n := |events| - 1;
      TidyRuns(trace[..n + 1], events[..n], c);
      assert trace == trace[..n + 1] + [trace[n + 1]];
      if AllTidy(trace[..n + 1]) {
        assert trace[..n + 1][n] == trace[n];
        TidyStep(trace[n], events[n], trace[n + 1], c);
      }
      assert AllTidy(trace) <==> AllTidy(trace[..n + 1]) && !trace[n + 1].jammed && Tidy(trace[n + 1]);
      assert AllSeparate(trace, events)
        <==> AllSeparate(trace[..n + 1], events[..n]) && Separate(trace[n], events[n]);
    }
  }

  // -------------------------------------------------------------------------------------------
  // TaskQueue
  // -------------------------------------------------------------------------------------------

  datatype QueueError =
    | Fine
    | AlreadyPending
    | UnknownBatch
    | UnknownTasks
    | NoneRequested
    | NoneAvailable
    | Waits

  class TaskQueue {
    const config: Config
    var tasks: set<Task>
    var open: multiset<Task>
    var held: map<nat, Held>
    var nextId: nat
    var locked: bool
    var waiters: seq<Adder>
    var woken: bool
    var adders: map<Adder, seq<Task>>
    var jammed: bool

    ghost function Now(): State
      reads this
    {
      State(tasks, open, held, nextId, locked, waiters, woken, adders, jammed)
    }

    /** The invariant between two suspension points, up to a put() that has to wait. */
    ghost predicate Valid()
      reads this
    {
      jammed || Sound(Now(), config)
    }

    constructor (maxsize: int, key: Task -> int)
      ensures Now() == EMPTY && config == Config(maxsize, key) && Valid()
    {
      config := Config(maxsize, key);
      tasks, open, held, nextId := {}, multiset{}, map[], 0;
      locked, waiters, woken, adders, jammed := false, [], false, map[], false;
    }

    /** release() wakes the first waiter, which takes the lock only when it runs again. */
    method Release()
      requires locked
      modifies this`locked, this`woken
      ensures !locked && woken == (waiters != [])
    {
      locked := false;
      woken := waiters != [];
    }

    /** A call to add(), up to its first suspension. */
    method Add(id: Adder, ts: seq<Task>) returns (err: QueueError)
      requires Valid() && !jammed && id !in adders
      modifies this
      ensures Valid() && Next(old(Now()), Adds(id, ts), Now(), config)
      ensures err == if Elements(ts) !! old(tasks) then Fine else AlreadyPending
    {
      if exists t :: t in ts && t in tasks {
        return AlreadyPending;
      }
      AddLoop(id, Sort(config.key, ts));
      return Fine;
    }

    /** A woken add() call takes the lock and goes on with what it has left. */
    method ResumeAdd()
      requires Valid() && !jammed && woken
      modifies this
      ensures Valid() && Next(old(Now()), AddResumes, Now(), config)
    {
      hide Sound, Steady, Proceeds;
      SteadyWithdrawn(Now(), config);
      var id := waiters[0];
      var remaining := adders[id];
      waiters := waiters[1..];
      adders := adders - {id};
      woken, locked := false, true;
      assert Now() == Withdraw(old(Now()));
      AddLoop(id, remaining);
    }

    /** The loop of add(): insert while there is room, queue up for the lock when there is none. */
    method AddLoop(id: Adder, ts: seq<Task>)
      requires Steady(Now(), config) && !jammed && id !in adders && (locked ==> Full(Now(), config) || ts != [])
      modifies this
      ensures Valid() && Proceeds(old(Now()), id, ts, Now(), config)
    {
      hide Steady, Elements, Fill;
      var k := 0;
      EmptyElements<Task>();
      assert ts[..0] == [] && ts[0..] == ts;
      ghost var s := Now();
      while k < |ts|
        invariant Adding(s, ts, k)
        decreases |ts| - k, !locked
      {
        var stopped;
        k, stopped := AddRound(id, ts, k, s);
        if stopped {
          return;
        }
      }
      AllAdded(s, id, ts, Now(), config);
    }

    /** The first k tasks of a running add() call are in, and as many more fit as from the start. */
    ghost predicate Adding(s: State, ts: seq<Task>, k: nat)
      reads this
    {
      && !jammed && Steady(Now(), config) && k <= |ts|
      && (locked ==> Full(Now(), config) || (k == 0 && ts != []))
      && Inserted(s, ts, k, Now(), config)
      && k + Fill(config.maxsize, tasks, ts[k..]) == Fill(config.maxsize, s.tasks, ts)
    }

    method AddRound(id: Adder, ts: seq<Task>, k: nat, ghost s: State) returns (k': nat, stopped: bool)
      requires Adding(s, ts, k) && k < |ts| && id !in s.adders
      modifies this
      ensures stopped ==> Valid() && Proceeds(s, id, ts, Now(), config)
      ensures !stopped ==> Adding(s, ts, k') && (k' > k || (k' == k && locked && !old(locked)))
    {
      hide Elements;
      var slots;
      if config.maxsize <= 0 {
        slots := |ts| - k;
      } else if |tasks| < config.maxsize {
        slots := config.maxsize - |tasks|;
      } else {
        stopped := Acquire(id, ts, k);
        if stopped {
          OutOfRoom(s, id, ts, k, old(Now()), Now(), config);
        }
        return k, stopped;
      }
      k', stopped := InsertBatch(id, ts, k, slots, s);
    }

    /** One round of the loop: fill the open slots, and give the lock up if there is still room. */
    method InsertBatch(id: Adder, ts: seq<Task>, k: nat, slots: nat, ghost s: State) returns (m: nat, stopped: bool)
      requires Adding(s, ts, k) && k < |ts| && slots > 0
      requires slots == if config.maxsize <= 0 then |ts| - k else config.maxsize - |tasks|
      modifies this
      ensures stopped ==> Valid() && Proceeds(s, id, ts, Now(), config)
      ensures !stopped ==> Adding(s, ts, m) && m > k
    {
      hide Elements, Fill, Steady, Sound, Inserted, Proceeds;
      RoomToPut(Now(), config);
      m := if k + slots < |ts| then k + slots else |ts|;
      Fits(tasks, ts, k, m, config);
      PutAll(ts[k..m]);
      if jammed {
        PutWaits(s, id, ts, k, m, old(Now()), Now(), config);
        return m, true;
      }
      InsertMore(s, ts, k, m, old(Now()), config);
      SoundFreed(Now(), config);
      if locked && |tasks| < config.maxsize {
        Release();
      }
      RoomToPut(Now(), config);
      stopped := false;
    }

    /** Puts the tasks into the open queue, and counts them as pending once all are in. */
    method PutAll(queueing: seq<Task>)
      requires Steady(Now(), config) && !jammed && (config.maxsize > 0 ==> |open| <= config.maxsize)
      requires config.maxsize > 0 ==> |tasks + Elements(queueing)| <= config.maxsize
      modifies this`open, this`tasks, this`jammed
      ensures jammed <==> config.maxsize > 0 && |old(open)| + |queueing| > config.maxsize
      ensures !jammed ==> tasks == old(tasks) + Elements(queueing) && open == old(open) + multiset(queueing)
      ensures !jammed ==> Steady(Now(), config)
    {
      hide Steady, Elements;
      PutEach(queueing);
      if jammed {
        return;
      }
      var queued := set t | t in queueing;
      AsElements(queueing);
      tasks := tasks + queued;
      SteadyPut(old(Now()), queueing, config);
    }

    method PutEach(queueing: seq<Task>)
      requires !jammed && (config.maxsize > 0 ==> |open| <= config.maxsize)
      modifies this`open, this`jammed
      ensures jammed <==> config.maxsize > 0 && |old(open)| + |queueing| > config.maxsize
      ensures !jammed ==> open == old(open) + multiset(queueing)
    {
      for i := 0 to |queueing|
        invariant !jammed && open == old(open) + multiset(queueing[..i])
        invariant config.maxsize > 0 ==> |open| <= config.maxsize
      {
        // put() waits while the open queue is full
        if config.maxsize > 0 && |open| >= config.maxsize {
          jammed := true;
          return;
        }
        assert queueing[..i + 1] == queueing[..i] + [queueing[i]];
        open := open + multiset{queueing[i]};
      }
      assert queueing[..|queueing|] == queueing;
    }

    /** acquire(): immediate if the lock is free and nobody waits, else join the waiters. */
    method Acquire(id: Adder, ts: seq<Task>, k: nat) returns (suspended: bool)
      requires Steady(Now(), config) && !jammed && id !in adders && k < |ts| && Full(Now(), config)
      modifies this`locked, this`waiters, this`adders
      ensures Valid() && suspended == (old(locked) || old(waiters) != [])
      ensures suspended ==> locked == old(locked)
      ensures suspended ==> waiters == old(waiters) + [id] && adders == old(adders)[id := ts[k..]]
      ensures !suspended ==> locked && waiters == old(waiters) && adders == old(adders)
    {
      if !locked && waiters == [] {
        locked := true;
        return false;
      }
      assert id !in Elements(waiters);
      waiters := waiters + [id];
      adders := adders[id := ts[k..]];
      AppendElement(old(waiters), id);
      return true;
    }

    /** Checks out tasks, the most urgent first; without any open task get() waits. */
    method Get(maxResults: Option<int>) returns (err: QueueError, id: nat, batch: seq<Task>)
      requires Valid() && !jammed
      modifies this`open, this`held, this`nextId
      ensures Valid() && Next(old(Now()), Gets(maxResults), Now(), config)
      ensures err == if maxResults.Some? && maxResults.value < 1 then NoneRequested
                     else if old(open) == multiset{} then Waits else Fine
      ensures err == Fine ==> id !in old(held) && held == old(held)[id := CheckedOut(batch)] && batch != []
      ensures err == Fine ==> open == multiset{} || (maxResults.Some? && |batch| == maxResults.value)
      ensures err == Fine && maxResults.Some? ==> |batch| <= maxResults.value
    {
      hide TakesOut;
      if maxResults.Some? && maxResults.value < 1 {
        return NoneRequested, 0, [];
      } else if open == multiset{} {
        return Waits, 0, [];
      }
      var n := if maxResults.None? || maxResults.value > |open| then |open| else maxResults.value;
      id, batch := CheckOut(n);
      err := Fine;
    }

    /** The same without waiting; asking for less than one task checks out an empty batch. */
    method GetNowait(maxResults: Option<int>) returns (err: QueueError, id: nat, batch: seq<Task>)
      requires Valid() && !jammed
      modifies this`open, this`held, this`nextId
      ensures Valid() && Next(old(Now()), GetsNow(maxResults), Now(), config)
      ensures err == if old(open) == multiset{} then NoneAvailable else Fine
      ensures err == Fine ==> id !in old(held) && held == old(held)[id := CheckedOut(batch)]
      ensures err == Fine && maxResults.Some? && maxResults.value < 1 ==> batch == [] && open == old(open)
      ensures err == Fine && (maxResults.Some? ==> maxResults.value >= 1) ==>
                open == multiset{} || (maxResults.Some? && |batch| == maxResults.value)
      ensures err == Fine && maxResults.Some? && maxResults.value >= 1 ==> |batch| <= maxResults.value
    {
      hide TakesOut;
      if open == multiset{} {
        return NoneAvailable, 0, [];
      }
      var n := if maxResults.None? || maxResults.value > |open| then |open| else maxResults.value;
      id, batch := CheckOut(if n < 0 then 0 else n);
      assert n <= 0 ==> batch == [] && open == old(open);
      err := Fine;
    }

    method CheckOut(n: nat) returns (id: nat, batch: seq<Task>)
      requires Valid() && !jammed && n <= |open|
      modifies this`open, this`held, this`nextId
      ensures Valid() && TakesOut(old(Now()), batch, Now(), config)
      ensures |batch| == n && open == old(open) - multiset(batch) && |open| == |old(open)| - n
      ensures id !in old(held) && held == old(held)[id := CheckedOut(batch)]
    {
      hide MostUrgent, Sound;
      batch := PopLeast(n);
      id := nextId;
      nextId := nextId + 1;
      held := held[id := CheckedOut(batch)];
      SoundCheckOut(old(Now()), batch, Now(), config);
    }

    method PopLeast(n: nat) returns (batch: seq<Task>)
      requires n <= |open|
      modifies this`open
      ensures multiset(batch) <= old(open) && open == old(open) - multiset(batch) && |batch| == n
      ensures MostUrgent(config.key, batch, open)
    {
      hide MostUrgent;
      batch := [];
      NothingPopped(config.key, open);
      while |batch| < n
        invariant |batch| <= n && |open| == |old(open)| - |batch|
        invariant open + multiset(batch) == old(open) && MostUrgent(config.key, batch, open)
      {
        ghost var w := LeastExists(config.key, open);
        var t :| t in open && forall u :: u in open ==> config.key(t) <= config.key(u);
        PopOne(config.key, batch, open, t);
        batch := batch + [t];
        open := open - multiset{t};
      }
    }

    /** A call to complete(), up to its first suspension. */
    method Complete(id: nat, completed: seq<Task>) returns (err: QueueError)
      requires Valid() && !jammed
      modifies this
      ensures Valid() && Next(old(Now()), Completes(id, completed), Now(), config)
      ensures err == if id !in old(held) || old(held)[id].Completing? then UnknownBatch
                     else if Elements(completed) <= old(held)[id].Tasks() then Fine else UnknownTasks
    {
      hide Completion;
      if id !in held || held[id].Completing? {
        return UnknownBatch;
      }
      var attempted, done := set t | t in held[id].batch, set t | t in completed;
      assert attempted == held[id].Tasks() && done == Elements(completed);
      if !(done <= attempted) {
        return UnknownTasks;
      }
      held := held[id := Completing(attempted - done, done)];
      assert Now() == Begin(old(Now()), id, done);
      ResumeComplete(id);
      return Fine;
    }

    /** A complete() call goes on: put one more abandoned task back, or finish. */
    method ResumeComplete(id: nat)
      requires Valid() && !jammed && id in held && held[id].Completing?
      modifies this
      ensures Valid() && Completion(old(Now()), id, Now(), config)
    {
      var h := held[id];
      if h.requeue != {} {
        ghost var w := Pick(h.requeue);
        var t :| t in h.requeue;
        // put_nowait() raises when the open queue is full, and the put() that follows waits
        if config.maxsize > 0 && |open| >= config.maxsize {
          jammed := true;
          return;
        }
        open := open + multiset{t};
        held := held[id := Completing(h.requeue - {t}, h.done)];
        assert Now() == PutBack(old(Now()), id, t);
      } else {
        FinishComplete(id);
      }
    }

    method FinishComplete(id: nat)
      requires Valid() && !jammed && id in held && held[id].Completing? && held[id].requeue == {}
      modifies this`tasks, this`held, this`locked, this`woken
      ensures Valid() && Completion(old(Now()), id, Now(), config)
    {
      hide Sound, Steady;
      var h := held[id];
      SteadyDischarged(Now(), id, config);
      tasks := tasks - h.done;
      held := held - {id};
      SoundFreed(Now(), config);
      if locked && |tasks| < config.maxsize {
        Release();
      }
    }

    /** One coroutine runs up to its next suspension; what cannot run in the current state is skipped. */
    method Happen(e: Event)
      requires Valid()
      modifies this
      ensures Valid() && Next(old(Now()), e, Now(), config)
    {
      hide Proceeds, TakesOut, Completion;
      if jammed {
        return;
      }
      match e
      case Adds(id, ts) =>
        if id !in adders {
          var _ := Add(id, ts);
        }
      case AddResumes =>
        if woken {
          ResumeAdd();
        }
      case Gets(maxResults) =>
        var _, _, _ := Get(maxResults);
      case GetsNow(maxResults) =>
        var _, _, _ := GetNowait(maxResults);
      case Completes(id, completed) =>
        var _ := Complete(id, completed);
      case CompleteResumes(id) =>
        if id in held && held[id].Completing? {
          ResumeComplete(id);
        }
    }

    /**
     Every interleaving: the bound holds and nobody waits for room in vain. If and only if every offer
     was separate, each task was in one place throughout, and then no put() ever had to wait.
     */
    method Run(events: seq<Event>) returns (ghost trace: seq<State>)
      requires Valid() && !jammed && Tidy(Now())
      modifies this
      ensures Traces(trace, events, config) && trace[0] == old(Now()) && trace[|events|] == Now()
      ensures !jammed ==> (config.maxsize > 0 ==> |tasks| <= config.maxsize && |open| <= config.maxsize)
      ensures !jammed && adders != map[] && |tasks| < config.maxsize ==> woken
      ensures AllTidy(trace) <==> AllSeparate(trace, events)
      ensures AllSeparate(trace, events) ==>
                !jammed && tasks == Open(open) + HeldTasks(held) && Open(open) !! HeldTasks(held)
    {
      hide Next, Separate, Sound;
      trace := [Now()];
      for i := 0 to |events|
        invariant Valid() && Traces(trace, events[..i], config) && trace[0] == old(Now()) && trace[i] == Now()
      {
        Happen(events[i]);
        trace := trace + [Now()];
        assert events[..i + 1] == events[..i] + [events[i]];
      }
      assert events[..|events|] == events;
      TidyRuns(trace, events, config);
      if !jammed {
        Bounded(Now(), config);
      }
    }
  }

  lemma Bounded(s: State, c: Config)
    requires Sound(s, c)
    ensures c.maxsize > 0 ==> |s.tasks| <= c.maxsize && |s.open| <= c.maxsize
    ensures s.adders != map[] && |s.tasks| < c.maxsize ==> s.woken
  {
    if s.adders != map[] && |s.tasks| < c.maxsize {
      RoomMeansWoken(s, c);
    }
  }

  /** The first k tasks are in; a call that has no room for the next one may have taken the lock. */
  ghost predicate Inserted(s: State, ts: seq<Task>, k: nat, s': State, c: Config)
    requires k <= |ts|
  {
    var s1 := Insert(if k == 0 then s else Relocked(s, ts, c), ts[..k]);
    s' == s1 || (s' == s1.(locked := true) && Full(s', c) && s.waiters == [] && k < |ts|)
  }

  lemma Fits(tasks: set<Task>, ts: seq<Task>, k: nat, m: nat, c: Config)
    requires k <= m <= |ts| && (c.maxsize > 0 ==> |tasks| + m - k <= c.maxsize)
    ensures Fill(c.maxsize, tasks, ts[k..]) == m - k + Fill(c.maxsize, tasks + Elements(ts[k..m]), ts[m..])
    ensures c.maxsize > 0 ==> |tasks + Elements(ts[k..m])| <= c.maxsize
  {
    var rest := ts[k..];
    assert rest[..m - k] == ts[k..m] && rest[m - k..] == ts[m..];
    FillSplit(c.maxsize, tasks, rest, m - k);
  }

  lemma PutWaits(s: State, id: Adder, ts: seq<Task>, k: nat, m: nat, s1: State, s2: State, c: Config)
    requires k <= m <= Fill(c.maxsize, s.tasks, ts) && Inserted(s, ts, k, s1, c)
    requires c.maxsize > 0 && |s1.open| + m - k > c.maxsize && s2.jammed
    ensures Proceeds(s, id, ts, s2, c)
  {
  }

  lemma InsertMore(s: State, ts: seq<Task>, k: nat, m: nat, s1: State, c: Config)
    requires k < m <= |ts| && m - k == Slots(s1, ts[k..], c) && Inserted(s, ts, k, s1, c)
    requires !Full(s1, c) && (s1.locked ==> k == 0)
    ensures Inserted(s, ts, m, Freed(Insert(s1, ts[k..m]), c), c)
  {
    hide Elements;
    EmptyElements<Task>();
    assert ts[..m] == ts[..k] + ts[k..m];
    ElementsConcat(ts[..k], ts[k..m]);
    if k == 0 {
      assert ts[k..] == ts && ts[k..m] == ts[..m] && ts[..k] == [];
      assert s1 == s by {
        assert s.tasks + {} == s.tasks;
      }
    } else {
      assert Insert(s1, ts[k..m]) == Insert(Relocked(s, ts, c), ts[..m]);
    }
  }

  lemma AsElements(ts: seq<Task>)
    ensures (set t | t in ts) == Elements(ts)
  {
  }

  lemma RoomToPut(s: State, c: Config)
    requires Steady(s, c)
    ensures c.maxsize > 0 ==> |s.tasks| <= c.maxsize && |s.open| <= c.maxsize
    ensures Sound(s, c) && s.locked ==> Full(s, c)
  {
  }

  lemma SteadyPut(s: State, ts: seq<Task>, c: Config)
    requires Steady(s, c)
    requires c.maxsize > 0 ==> |s.tasks + Elements(ts)| <= c.maxsize && |s.open| + |ts| <= c.maxsize
    ensures Steady(s.(tasks := s.tasks + Elements(ts), open := s.open + multiset(ts)), c)
  {
  }

  lemma SteadyWithdrawn(s: State, c: Config)
    requires Sound(s, c) && s.woken
    ensures s.waiters != [] && s.waiters[0] in s.adders && s.adders[s.waiters[0]] != []
    ensures Steady(Withdraw(s), c)
  {
    DropElement(s.waiters, 0);
    assert s.waiters[0..] == s.waiters;
    assert s.waiters[0] in Elements(s.waiters);
  }

  lemma SoundCheckOut(s: State, batch: seq<Task>, s': State, c: Config)
    requires Sound(s, c) && TakesOut(s, batch, s', c)
    ensures Sound(s', c) && s.nextId !in s.held
  {
  }

  lemma SoundFreed(s: State, c: Config)
    requires Steady(s, c)
    ensures Sound(Freed(s, c), c)
  {
  }

  lemma SteadyDischarged(s: State, id: nat, c: Config)
    requires Sound(s, c) && id in s.held && s.held[id].Completing?
    ensures Steady(s.(tasks := s.tasks - s.held[id].done, held := s.held - {id}), c)
  {
    SubsetSize(s.tasks - s.held[id].done, s.tasks);
  }

  lemma AllAdded(s: State, id: Adder, ts: seq<Task>, s': State, c: Config)
    requires Inserted(s, ts, |ts|, s', c) && Steady(s', c) && (s'.locked ==>
               Full(s', c)) && Fill(c.maxsize, s.tasks, ts) == |ts|
    ensures Proceeds(s, id, ts, s', c)
  {
    hide Elements;
    assert ts[..|ts|] == ts;
    EmptyElements<Task>();
    assert s.tasks + {} == s.tasks;
  }

  lemma OutOfRoom(s: State, id: Adder, ts: seq<Task>, k: nat, s1: State, s2: State, c: Config)
    requires k < |ts| && Inserted(s, ts, k, s1, c) && Steady(s1, c) && Fill(c.maxsize, s.tasks, ts) == k
    requires Full(s1, c) && (s1.locked || s1.waiters != [])
    requires s2 == s1.(waiters := s1.waiters + [id], adders := s1.adders[id := ts[k..]])
    ensures Proceeds(s, id, ts, s2, c)
  {
  }
}

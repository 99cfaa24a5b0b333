/**
 The cooperative executor of kernel/src/task/executor.rs as an interleaving protocol. The poll
 loop pops ids from a bounded queue; wakers, interrupt handlers and the spawn path run
 `queue_task`. Every lock section and every queue operation is one step.
 */
module Executor {
  import opened Fifo

  const CAPACITY: nat := 256

  /** A running call of `queue_task`, by the section it is about to enter. */
  datatype Call =
    | Entering(id: nat)      // before the `queued_tasks` section
    | Marked(id: nat)        // marked, before `task_queue.push`
    | Refused(id: nat)       // the push failed, before the mark is taken back

  /** Where the poll loop stands. */
  datatype Loop =
    | Draining               // drain_spawn_queue
    | Popping                // task_queue.pop()
    | Popped(id: nat)        // popped, before the mark is removed
    | Unmarked(id: nat)      // mark removed, before its future is looked up and polled
    | Polling(id: nat)       // inside that future
    | Idle                   // sleep_if_idle, interrupts disabled
    | Halted                 // hlt

  datatype State = State(
    queue: seq<nat>,         // task_queue
    marks: set<nat>,         // queued_tasks
    tasks: set<nat>,         // the keys of tasks
    taskCount: nat,          // TASK_COUNT
    calls: map<nat, Call>,   // the running calls of queue_task
    nextCall: nat,
    pending: seq<nat>,       // SPAWN_QUEUE
    nextId: nat,             // TaskId counter
    loop: Loop,
    // history
    woken: set<nat>)         // ids of live tasks with a wake section not yet followed by the start of a poll

  const INITIAL: State := State([], {}, {}, 0, map[], 0, [], 0, Draining, {})

  datatype Step =
    | Spawn                          // spawn(): a new task enters SPAWN_QUEUE
    | Wake(id: nat)                  // somebody calls a waker
    | Mark(call: nat)                // the section that inserts into queued_tasks
    | Push(call: nat)                // task_queue.push
    | Unmark(call: nat)              // the section that removes a refused id
    | Advance(locked: bool, done: bool)
      // the poll loop's next action; `locked`: SPAWN_QUEUE is held by somebody else;
      // `done`: the future being polled returned Ready

  /** Nothing runs while the processor is halted except after an interrupt. */
  function Interrupted(loop: Loop): Loop { if loop.Halted? then Draining else loop }

  function Without(calls: map<nat, Call>, k: nat): map<nat, Call> {
    map j | j in calls && j != k :: calls[j]
  }

  function AddCalls(calls: map<nat, Call>, next: nat, ids: seq<nat>): map<nat, Call>
    decreases |ids|
  {
    if ids == [] then calls else AddCalls(calls[next := Entering(ids[0])], next + 1, ids[1..])
  }

  function IdSet(ids: seq<nat>): set<nat> { set id | id in ids }

  function AdvanceLoop(s: State, locked: bool, done: bool): State {
    match s.loop
    case Draining =>
      if locked then s.(loop := Popping)
      else s.(loop := Popping, tasks := s.tasks + IdSet(s.pending), taskCount := s.taskCount + |s.pending|,
              pending := [], calls := AddCalls(s.calls, s.nextCall, s.pending), nextCall := s.nextCall + |s.pending|)
    case Popping =>
      if s.queue == [] then s.(loop := Idle) else s.(loop := Popped(s.queue[0]), queue := s.queue[1..])
    case Popped(id) => s.(loop := Unmarked(id), marks := s.marks - {id})
    case Unmarked(id) =>
      if id in s.tasks then s.(loop := Polling(id), woken := s.woken - {id}) else s.(loop := Popping)
    case Polling(id) =>
      if done && id in s.tasks && s.taskCount > 0
      then s.(loop := Popping, tasks := s.tasks - {id}, taskCount := s.taskCount - 1)
      else s.(loop := Popping)
    case Idle =>
      var hasSpawn := !locked && s.pending != [];
      if s.queue == [] && !hasSpawn then s.(loop := Halted) else s.(loop := Draining)
    case Halted => s.(loop := Draining)
  }

  function Apply(s: State, step: Step): State {
    var s0 := s.(loop := Interrupted(s.loop));
    match step
    case Spawn => s0.(pending := s.pending + [s.nextId], nextId := s.nextId + 1)
    case Wake(id) => s0.(calls := s.calls[s.nextCall := Entering(id)], nextCall := s.nextCall + 1)
    case Mark(k) =>
      if k !in s.calls || !s.calls[k].Entering? then s0
      else
        var id := s.calls[k].id;
        var woken := if id in s.tasks then s.woken + {id} else s.woken;
        if id in s.marks then s0.(calls := Without(s.calls, k), woken := woken)
        else s0.(calls := s.calls[k := Marked(id)], marks := s.marks + {id}, woken := woken)
    case Push(k) =>
      if k !in s.calls || !s.calls[k].Marked? then s0
      else
        var id := s.calls[k].id;
        if |s.queue| < CAPACITY then s0.(calls := Without(s.calls, k), queue := s.queue + [id])
        else s0.(calls := s.calls[k := Refused(id)])
    case Unmark(k) =>
      if k !in s.calls || !s.calls[k].Refused? then s0
      else s0.(calls := Without(s.calls, k), marks := s.marks - {s.calls[k].id})
    case Advance(locked, done) => AdvanceLoop(s, locked, done)
  }

  // ---------------------------------------------------------------------------
  // The mark invariant
  // ---------------------------------------------------------------------------

  /** The calls that marked an id and have neither pushed it nor taken the mark back. */
  ghost function Holders(calls: map<nat, Call>, id: nat): set<nat> {
    set k | k in calls && calls[k].id == id && !calls[k].Entering?
  }

  /** Queue occurrences, plus popped-not-unmarked, plus marked-not-pushed. */
  ghost function Tokens(s: State, id: nat): nat {
    multiset(s.queue)[id] + (if s.loop == Popped(id) then 1 else 0) + |Holders(s.calls, id)|
  }

  ghost predicate OneToken(s: State, id: nat) {
    Tokens(s, id) == if id in s.marks then 1 else 0
  }

  /** A wake of a live task that no poll has answered yet is still on its way to one. */
  ghost predicate NotLost(s: State, id: nat) {
    id in s.woken && id in s.tasks ==> id in s.marks || s.loop == Unmarked(id)
  }

  ghost predicate Fresh(s: State) {
    && (forall k :: k in s.calls ==> k < s.nextCall)
    && (forall id :: id in s.tasks || id in s.woken ==> id < s.nextId)
    && (forall k :: 0 <= k < |s.pending| ==> s.pending[k] < s.nextId && s.pending[k] !in s.tasks && s.pending[k] !in s.woken)
    && (forall j, k :: 0 <= j < k < |s.pending| ==> s.pending[j] != s.pending[k])
    && s.taskCount == |s.tasks|
    && (s.loop.Halted? ==> s.queue == [])
  }

  ghost predicate Inv(s: State) {
    && Fresh(s)
    && (forall id :: OneToken(s, id))
  }

  lemma HoldersUpdate(calls: map<nat, Call>, k: nat, c: Call, id: nat)
    requires k in calls && c.id == calls[k].id
    ensures Holders(Without(calls, k), id) == Holders(calls, id) - {k}
    ensures Holders(calls[k := c], id) ==
            if c.id == id && !c.Entering? then Holders(calls, id) + {k} else Holders(calls, id) - {k}
  {
  }

  lemma MarkToken(s: State, k: nat, id: nat)
    requires OneToken(s, id) && k in s.calls && s.calls[k].Entering?
    ensures OneToken(Apply(s, Mark(k)), id)
  {
    var i := s.calls[k].id;
    HoldersUpdate(s.calls, k, Marked(i), id);
    assert k !in Holders(s.calls, id);
  }

  lemma PushToken(s: State, k: nat, id: nat)
    requires OneToken(s, id) && k in s.calls && s.calls[k].Marked?
    ensures OneToken(Apply(s, Push(k)), id)
  {
    var i := s.calls[k].id;
    HoldersUpdate(s.calls, k, Refused(i), id);
    assert k in Holders(s.calls, i);
    if |s.queue| >= CAPACITY {
      assert Holders(s.calls[k := Refused(i)], id) == Holders(s.calls, id);
    } else {
      assert multiset(s.queue + [i])[id] == multiset(s.queue)[id] + if id == i then 1 else 0;
    }
  }

  lemma UnmarkToken(s: State, k: nat, id: nat)
    requires OneToken(s, id) && k in s.calls && s.calls[k].Refused?
    ensures OneToken(Apply(s, Unmark(k)), id)
  {
    HoldersUpdate(s.calls, k, s.calls[k], id);
    assert k in Holders(s.calls, s.calls[k].id);
  }

  lemma {:induction false} AddCallsHolders(calls: map<nat, Call>, next: nat, ids: seq<nat>, id: nat)
    requires forall k :: k in calls ==> k < next
    ensures Holders(AddCalls(calls, next, ids), id) == Holders(calls, id)
    ensures forall k :: k in AddCalls(calls, next, ids) ==> k < next + |ids|
    decreases |ids|
  {
    if ids != [] {
      var calls' := calls[next := Entering(ids[0])];
      AddCallsHolders(calls', next + 1, ids[1..], id);
      assert Holders(calls', id) == Holders(calls, id);
    }
  }

  lemma TokensAdvance(s: State, locked: bool, done: bool, id: nat)
    requires Fresh(s) && OneToken(s, id)
    ensures OneToken(AdvanceLoop(s, locked, done), id)
  {
    match s.loop
    case Draining =>
      AddCallsHolders(s.calls, s.nextCall, s.pending, id);
    case Popping =>
      if s.queue != [] {
        assert s.queue == [s.queue[0]] + s.queue[1..];
      }
    case _ =>
  }

  lemma {:induction false} PendingSize(pending: seq<nat>)
    requires forall j, k :: 0 <= j < k < |pending| ==> pending[j] != pending[k]
    ensures |IdSet(pending)| == |pending|
  {
    if pending != [] {
      var init := pending[..|pending| - 1];
      var last := pending[|pending| - 1];
      PendingSize(init);
      assert IdSet(pending) == IdSet(init) + {last};
    }
  }

  lemma FreshAfterDrain(s: State, done: bool)
    requires Fresh(s) && s.loop.Draining?
    ensures Fresh(AdvanceLoop(s, false, done))
  {
    PendingSize(s.pending);
    AddCallsHolders(s.calls, s.nextCall, s.pending, 0);
    assert s.tasks !! IdSet(s.pending);
  }

  lemma FreshAdvance(s: State, locked: bool, done: bool)
    requires Fresh(s)
    ensures Fresh(AdvanceLoop(s, locked, done))
  {
    hide AddCalls;
    if s.loop.Draining? && !locked {
      FreshAfterDrain(s, done);
    }
  }

  lemma FreshKept(s: State, step: Step)
    requires Fresh(s)
    ensures Fresh(Apply(s, step))
  {
    hide AdvanceLoop;
    match step
    case Advance(locked, done) => FreshAdvance(s, locked, done);
    case Spawn =>
    case Wake(_) =>
    case Mark(k) =>
    case Push(k) =>
    case Unmark(k) =>
  }

  lemma StepKeeps(s: State, step: Step)
    requires Inv(s)
    ensures Inv(Apply(s, step))
  {
    FreshKept(s, step);
    forall id ensures OneToken(Apply(s, step), id) {
      assert OneToken(s, id);
      match step
      case Spawn =>
      case Wake(i) => assert Holders(s.calls[s.nextCall := Entering(i)], id) == Holders(s.calls, id);
      case Mark(k) => if k in s.calls && s.calls[k].Entering? { MarkToken(s, k, id); }
      case Push(k) => if k in s.calls && s.calls[k].Marked? { PushToken(s, k, id); }
      case Unmark(k) => if k in s.calls && s.calls[k].Refused? { UnmarkToken(s, k, id); }
      case Advance(locked, done) => TokensAdvance(s, locked, done, id);
    }
  }

  function After(s: State, steps: seq<Step>): State {
    if steps == [] then s else Apply(After(s, steps[..|steps| - 1]), steps[|steps| - 1])
  }

  /**
   In every interleaving, for every id: occurrences in the queue, plus popped but not unmarked,
   plus marked but not pushed, is 1 if the id is marked and 0 otherwise.
   */
  lemma {:induction false} ExactlyOneToken(steps: seq<Step>)
    ensures Inv(After(INITIAL, steps))
  {
    if steps == [] {
      assert forall id :: Holders(INITIAL.calls, id) == {};
    } else {
      ExactlyOneToken(steps[..|steps| - 1]);
      StepKeeps(After(INITIAL, steps[..|steps| - 1]), steps[|steps| - 1]);
    }
  }

  // ---------------------------------------------------------------------------
  // No overflow, no lost wake-up
  // ---------------------------------------------------------------------------

  lemma {:induction false} DistinctFits(q: seq<nat>, ids: set<nat>)
    requires forall k :: 0 <= k < |q| ==> q[k] in ids
    requires forall j, k :: 0 <= j < k < |q| ==> q[j] != q[k]
    ensures |q| <= |ids|
  {
    if q != [] {
      var last := q[|q| - 1];
      DistinctFits(q[..|q| - 1], ids - {last});
    }
  }

  lemma QueueOf(s: State)
    requires Inv(s)
    ensures forall k :: 0 <= k < |s.queue| ==> s.queue[k] in s.marks
    ensures forall j, k :: 0 <= j < k < |s.queue| ==> s.queue[j] != s.queue[k]
  {
    forall k | 0 <= k < |s.queue| ensures s.queue[k] in s.marks {
      assert s.queue[k] in multiset(s.queue);
      assert OneToken(s, s.queue[k]);
    }
    forall j, k | 0 <= j < k < |s.queue| ensures s.queue[j] != s.queue[k] {
      assert s.queue == s.queue[..k] + [s.queue[k]] + s.queue[k + 1..];
      assert s.queue[..k][j] in multiset(s.queue[..k]);
      assert OneToken(s, s.queue[k]);
    }
  }

  /** While at most 256 ids are marked, a push finds room: the queue never overflows. */
  lemma PushFits(s: State, k: nat)
    requires Inv(s) && k in s.calls && s.calls[k].Marked? && |s.marks| <= CAPACITY
    ensures |s.queue| < CAPACITY
  {
    QueueOf(s);
    var id := s.calls[k].id;
    assert OneToken(s, id) && k in Holders(s.calls, id);
    assert multiset(s.queue)[id] == 0;
    DistinctFits(s.queue, s.marks - {id});
  }

  /** At every point of a run at most 256 ids are marked. */
  ghost predicate RunFits(steps: seq<Step>) {
    forall k :: 0 <= k <= |steps| ==> |After(INITIAL, steps[..k]).marks| <= CAPACITY
  }

  ghost predicate NoneRefused(calls: map<nat, Call>) {
    forall k :: k in calls ==> !calls[k].Refused?
  }

  /** What holds as long as at most 256 ids are marked at a time. */
  ghost predicate Roomy(s: State) {
    |s.marks| <= CAPACITY && NoneRefused(s.calls) && forall id :: NotLost(s, id)
  }

  lemma {:induction false} AddCallsFine(calls: map<nat, Call>, next: nat, added: seq<nat>)
    requires NoneRefused(calls)
    ensures NoneRefused(AddCalls(calls, next, added))
    decreases |added|
  {
    if added != [] {
      AddCallsFine(calls[next := Entering(added[0])], next + 1, added[1..]);
    }
  }

  lemma NotLostKept(s: State, step: Step, id: nat)
    requires Fresh(s) && NoneRefused(s.calls) && NotLost(s, id)
    ensures NotLost(Apply(s, step), id)
  {
    hide AddCalls;
  }

  /** A push with room is not refused. */
  lemma CallsFine(s: State, step: Step)
    requires NoneRefused(s.calls)
    requires step.Push? && step.call in s.calls && s.calls[step.call].Marked? ==> |s.queue| < CAPACITY
    ensures NoneRefused(Apply(s, step).calls)
  {
    hide AddCalls;
    AddCallsFine(s.calls, s.nextCall, s.pending);
  }

  lemma RoomyKept(s: State, step: Step)
    requires Inv(s) && Roomy(s) && |Apply(s, step).marks| <= CAPACITY
    ensures Roomy(Apply(s, step))
  {
    hide OneToken, NoneRefused, Apply, NotLost;
    if step.Push? && step.call in s.calls && s.calls[step.call].Marked? {
      PushFits(s, step.call);
    }
    CallsFine(s, step);
    forall id ensures NotLost(Apply(s, step), id) {
      assert NotLost(s, id);
      NotLostKept(s, step, id);
    }
  }

  /** With at most 256 ids marked at a time no push of a run ever overflows. */
  lemma {:induction false} RunRoomy(steps: seq<Step>)
    requires RunFits(steps)
    ensures Inv(After(INITIAL, steps)) && Roomy(After(INITIAL, steps))
  {
    ExactlyOneToken(steps);
    assert steps[..|steps|] == steps;
    if steps != [] {
      var init := steps[..|steps| - 1];
      assert forall k :: 0 <= k <= |init| ==> steps[..k] == init[..k];
      RunRoomy(init);
      RoomyKept(After(INITIAL, init), steps[|steps| - 1]);
    }
  }

  /**
   No lost wake-up: with at most 256 ids marked at a time, a wake of a live task that no poll has answered
   yet is in the queue, in the hands of a call that will push it, or already popped for its poll.
   */
  lemma NoLostWakeUp(steps: seq<Step>, id: nat)
    requires RunFits(steps)
    requires id in After(INITIAL, steps).woken && id in After(INITIAL, steps).tasks
    ensures var s := After(INITIAL, steps);
            || OnItsWay(s, id)
            || exists k :: k in s.calls && s.calls[k] == Marked(id)
  {
    RunRoomy(steps);
    var s := After(INITIAL, steps);
    assert NotLost(s, id) && OneToken(s, id);
    if id !in s.queue && s.loop != Popped(id) && s.loop != Unmarked(id) {
      assert multiset(s.queue)[id] == 0;
      assert |Holders(s.calls, id)| == 1;
      var k :| k in Holders(s.calls, id);
      assert s.calls[k] == Marked(id);
    }
  }

  // ---------------------------------------------------------------------------
  // Every wake is answered within a bounded number of loop actions
  // ---------------------------------------------------------------------------

  /** Loop actions until the loop is back at `pop`. */
  function ToPop(loop: Loop): nat {
    match loop
    case Popping => 0
    case Draining => 1
    case Polling(_) => 1
    case Unmarked(_) => 2
    case Popped(_) => 3
    case Idle => 2
    case Halted => 2
  }

  ghost predicate OnItsWay(s: State, id: nat) {
    id in s.queue || s.loop == Popped(id) || s.loop == Unmarked(id)
  }

  /** Loop actions until the poll of an id on its way starts. */
  ghost function Rank(s: State, id: nat): nat
    requires OnItsWay(s, id)
  {
    if s.loop == Unmarked(id) then 1
    else if s.loop == Popped(id) then 2
    else ToPop(s.loop) + 4 * FirstAt(s.queue, id) + 3
  }

  /** The step with which a poll of the id starts. */
  ghost predicate StartsPoll(s: State, step: Step, id: nat) {
    s.loop != Polling(id) && Apply(s, step).loop == Polling(id)
  }

  /** This task is gone, and ids are not given out twice. */
  ghost predicate Gone(s: State, id: nat) {
    id !in s.tasks && id < s.nextId && id !in s.pending
  }

  /** The poll that is running now ends its task. */
  ghost predicate EndsFirst(s: State, steps: seq<Step>, id: nat) {
    s.loop == Polling(id) && FirstDone(steps)
  }

  predicate FirstDone(steps: seq<Step>) {
    steps != [] && if steps[0].Advance? then steps[0].done else FirstDone(steps[1..])
  }

  lemma AdvanceDrops(s: State, step: Step, id: nat)
    requires Fresh(s) && OnItsWay(s, id) && id in s.tasks && step.Advance? && !StartsPoll(s, step, id)
    ensures OnItsWay(Apply(s, step), id) && Rank(Apply(s, step), id) <= Rank(s, id) - 1
  {
    hide AddCalls;
    if s.loop.Popping? && s.queue[0] != id {
      assert s.queue == [s.queue[0]] + s.queue[1..];
    }
  }

  lemma RankDrops(s: State, step: Step, id: nat)
    requires Fresh(s) && OnItsWay(s, id) && id in s.tasks && !StartsPoll(s, step, id)
    ensures OnItsWay(Apply(s, step), id)
    ensures Rank(Apply(s, step), id) <= Rank(s, id) - if step.Advance? then 1 else 0
  {
    hide AddCalls, AdvanceLoop;
    if step.Advance? {
      AdvanceDrops(s, step, id);
    } else if step.Push? && step.call in s.calls && s.calls[step.call].Marked? && id in s.queue {
      FirstAtSnoc(s.queue, id, s.calls[step.call].id);
    }
  }

  function LoopActions(steps: seq<Step>): nat {
    if steps == [] then 0 else (if steps[0].Advance? then 1 else 0) + LoopActions(steps[1..])
  }

  /** Somewhere in the run a poll of the id starts. */
  ghost predicate Polled(s: State, steps: seq<Step>, id: nat)
    decreases |steps|
  {
    steps != [] && (StartsPoll(s, steps[0], id) || Polled(Apply(s, steps[0]), steps[1..], id))
  }

  lemma {:induction false} NeverPolled(s: State, steps: seq<Step>, id: nat)
    requires Gone(s, id)
    ensures !Polled(s, steps, id)
    decreases |steps|
  {
    hide AddCalls;
    if steps != [] {
      NeverPolled(Apply(s, steps[0]), steps[1..], id);
    }
  }

  /** A live task stays one, unless the running poll of it ends it now. */
  lemma LiveStays(s: State, steps: seq<Step>, id: nat)
    requires Fresh(s) && id in s.tasks && steps != [] && !StartsPoll(s, steps[0], id)
    ensures steps[0].Advance? && EndsFirst(s, steps, id) ==> Gone(Apply(s, steps[0]), id)
    ensures !(steps[0].Advance? && EndsFirst(s, steps, id)) ==>
              && id in Apply(s, steps[0]).tasks
              && (EndsFirst(Apply(s, steps[0]), steps[1..], id) <==> EndsFirst(s, steps, id))
  {
    hide AddCalls;
  }

  /**
   Whatever the wakers do meanwhile, `Rank` loop actions start a poll of a live task on its way,
   if and only if the poll that may be running now does not end its task.
   */
  lemma {:induction false} PolledInTime(s: State, steps: seq<Step>, id: nat)
    requires Fresh(s) && OnItsWay(s, id) && id in s.tasks && LoopActions(steps) >= Rank(s, id)
    ensures Polled(s, steps, id) <==> !EndsFirst(s, steps, id)
    decreases |steps|
  {
    hide Apply;
    if StartsPoll(s, steps[0], id) {
    } else {
      LiveStays(s, steps, id);
      var s' := Apply(s, steps[0]);
      if steps[0].Advance? && EndsFirst(s, steps, id) {
        NeverPolled(s', steps[1..], id);
      } else {
        RankDrops(s, steps[0], id);
        FreshKept(s, steps[0]);
        PolledInTime(s', steps[1..], id);
      }
    }
  }

  // ---------------------------------------------------------------------------
  // From the wake to the poll
  // ---------------------------------------------------------------------------

  /** Enough loop actions for any place in a full queue. */
  const BOUND: nat := 4 * CAPACITY + 2

  lemma RankBound(s: State, id: nat)
    requires OnItsWay(s, id) && |s.queue| <= CAPACITY
    ensures Rank(s, id) <= BOUND
  {
  }

  /** The call pushes, and `n` loop actions follow. */
  ghost predicate PushedThen(steps: seq<Step>, k: nat, n: nat) {
    steps != [] && ((steps[0] == Push(k) && LoopActions(steps[1..]) >= n) || PushedThen(steps[1..], k, n))
  }

  lemma {:induction false} AddCallsKeeps(calls: map<nat, Call>, next: nat, ids: seq<nat>, k: nat)
    requires k in calls && k < next
    ensures k in AddCalls(calls, next, ids) && AddCalls(calls, next, ids)[k] == calls[k]
    decreases |ids|
  {
    if ids != [] {
      AddCallsKeeps(calls[next := Entering(ids[0])], next + 1, ids[1..], k);
    }
  }

  lemma MarkedStays(s: State, step: Step, k: nat, id: nat)
    requires Fresh(s) && k in s.calls && s.calls[k] == Marked(id) && step != Push(k)
    ensures k in Apply(s, step).calls && Apply(s, step).calls[k] == Marked(id)
  {
    hide AddCalls;
    AddCallsKeeps(s.calls, s.nextCall, s.pending, k);
  }

  lemma AfterSnoc(steps: seq<Step>, step: Step)
    ensures After(INITIAL, steps + [step]) == Apply(After(INITIAL, steps), step)
  {
    assert (steps + [step])[..|steps|] == steps;
  }

  lemma QueueBound(s: State)
    requires Inv(s) && Roomy(s)
    ensures |s.queue| <= CAPACITY
  {
    QueueOf(s);
    DistinctFits(s.queue, s.marks);
  }

  lemma FitsPrefix(steps: seq<Step>, more: seq<Step>)
    requires RunFits(steps + more)
    ensures RunFits(steps)
  {
    assert forall k :: 0 <= k <= |steps| ==> steps[..k] == (steps + more)[..k];
  }

  lemma FitsMove(steps: seq<Step>, more: seq<Step>)
    requires more != [] && RunFits(steps + more)
    ensures RunFits((steps + [more[0]]) + more[1..])
  {
    assert steps + [more[0]] + more[1..] == steps + more;
  }

  /** A wake in the hands of a call, which pushes before the loop has had its actions. */
  lemma {:induction false} MarkedAnswered(steps: seq<Step>, more: seq<Step>, id: nat, k: nat)
    requires RunFits(steps + more)
    requires var s := After(INITIAL, steps); id in s.tasks && k in s.calls && s.calls[k] == Marked(id)
    requires PushedThen(more, k, BOUND)
    ensures Polled(After(INITIAL, steps), more, id) <==> !EndsFirst(After(INITIAL, steps), more, id)
    decreases |more|
  {
    hide Apply, RunFits, OneToken, Roomy, Rank;
    var s := After(INITIAL, steps);
    FitsPrefix(steps, more);
    RunRoomy(steps);
    if !StartsPoll(s, more[0], id) {
      AfterSnoc(steps, more[0]);
      FitsMove(steps, more);
      LiveStays(s, more, id);
      var s' := Apply(s, more[0]);
      FreshKept(s, more[0]);
      if more[0].Advance? && EndsFirst(s, more, id) {
        NeverPolled(s', more[1..], id);
      } else if more[0] == Push(k) {
        PushedOnce(more, k, BOUND);
        PushArrives(s, k, id);
        FitsPrefix(steps + [more[0]], more[1..]);
        RunRoomy(steps + [more[0]]);
        QueueBound(s');
        RankBound(s', id);
        PolledInTime(s', more[1..], id);
      } else {
        MarkedStays(s, more[0], k, id);
        MarkedAnswered(steps + [more[0]], more[1..], id, k);
      }
    }
  }

  lemma {:induction false} PushedOnce(steps: seq<Step>, k: nat, n: nat)
    requires PushedThen(steps, k, n)
    ensures LoopActions(steps) >= n
  {
    if !(steps[0] == Push(k) && LoopActions(steps[1..]) >= n) {
      PushedOnce(steps[1..], k, n);
    }
  }

  lemma PushArrives(s: State, k: nat, id: nat)
    requires Inv(s) && Roomy(s) && k in s.calls && s.calls[k] == Marked(id)
    ensures OnItsWay(Apply(s, Push(k)), id)
  {
    PushFits(s, k);
  }

  /**
   Every wake of a live task is followed by a poll that starts after it: in every run from the
   start with at most 256 ids marked at a time, once the call that holds the wake has pushed and the loop has had
   its actions. The one exception is exact: it was being polled and that poll ended it.
   */
  lemma EveryWakeAnswered(steps: seq<Step>, more: seq<Step>, id: nat)
    requires RunFits(steps + more)
    requires id in After(INITIAL, steps).woken && id in After(INITIAL, steps).tasks
    requires LoopActions(more) >= BOUND
    requires forall k :: k in After(INITIAL, steps).calls && After(INITIAL, steps).calls[k] == Marked(id) ==>
                           PushedThen(more, k, BOUND)
    ensures Polled(After(INITIAL, steps), more, id) <==> !EndsFirst(After(INITIAL, steps), more, id)
  {
    hide Apply, OneToken, Roomy, Rank, RunFits;
    var s := After(INITIAL, steps);
    FitsPrefix(steps, more);
    RunRoomy(steps);
    NoLostWakeUp(steps, id);
    if OnItsWay(s, id) {
      QueueBound(s);
      RankBound(s, id);
      PolledInTime(s, more, id);
    } else {
      var k :| k in s.calls && s.calls[k] == Marked(id);
      MarkedAnswered(steps, more, id, k);
    }
  }

  // ---------------------------------------------------------------------------
  // From the spawn to the first poll
  // ---------------------------------------------------------------------------

  /** The loop drains the spawn queue and finds its lock free. */
  ghost predicate Drains(s: State, step: Step) {
    s.loop.Draining? && step.Advance? && !step.locked
  }

  ghost predicate NeverDrains(s: State, steps: seq<Step>)
    decreases |steps|
  {
    steps != [] ==> !Drains(s, steps[0]) && NeverDrains(Apply(s, steps[0]), steps[1..])
  }

  /** The call of `queue_task` that the next drain makes for a pending id. */
  ghost function CallFor(s: State, id: nat): nat {
    s.nextCall + if id in s.pending then FirstAt(s.pending, id) else 0
  }

  /** A drained task that waits for its first poll. */
  ghost predicate Expected(s: State, id: nat, k: nat) {
    id in s.tasks && s.loop != Polling(id) && (id in s.woken || (k in s.calls && s.calls[k] == Entering(id)))
  }

  /** Every call that holds the id pushes it, and then the loop has its actions. */
  ghost predicate PushesThen(s: State, steps: seq<Step>, id: nat) {
    LoopActions(steps) >= BOUND && forall k :: k in s.calls && s.calls[k] == Marked(id) ==> PushedThen(steps, k, BOUND)
  }

  lemma DrainTakes(s: State, done: bool, id: nat)
    requires Fresh(s) && s.loop.Draining? && id in s.pending
    ensures Expected(Apply(s, Advance(false, done)), id, CallFor(s, id))
  {
    hide AddCalls;
    AddCallsAt(s.calls, s.nextCall, s.pending, CallFor(s, id));
  }

  lemma ExpectedStays(s: State, step: Step, id: nat, k: nat)
    requires Fresh(s) && Expected(s, id, k) && !StartsPoll(s, step, id)
    ensures Expected(Apply(s, step), id, k) && (step == Mark(k) ==> id in Apply(s, step).woken)
  {
    hide AddCalls;
    if k in s.calls {
      AddCallsKeeps(s.calls, s.nextCall, s.pending, k);
    }
  }

  lemma {:induction false} ExpectedPolled(steps: seq<Step>, mid: seq<Step>, rest: seq<Step>, id: nat, k: nat)
    requires RunFits(steps + (mid + [Mark(k)] + rest)) && Expected(After(INITIAL, steps), id, k)
    requires PushesThen(After(INITIAL, steps + mid + [Mark(k)]), rest, id)
    ensures Polled(After(INITIAL, steps), mid + [Mark(k)] + rest, id)
    decreases |mid|
  {
    hide Apply, RunFits, Inv, Roomy, Expected, PushedThen, LoopActions;
    var s, more := After(INITIAL, steps), mid + [Mark(k)] + rest;
    FitsPrefix(steps, more);
    RunRoomy(steps);
    FreshOf(s);
    if !StartsPoll(s, more[0], id) {
      AfterSnoc(steps, more[0]);
      FitsMove(steps, more);
      ExpectedStays(s, more[0], id, k);
      if mid == [] {
        assert steps + mid + [Mark(k)] == steps + [more[0]] && more[1..] == rest;
        ExpectedIs(Apply(s, more[0]), id, k);
        EveryWakeAnswered(steps + [more[0]], rest, id);
      } else {
        assert more[1..] == mid[1..] + [Mark(k)] + rest;
        assert (steps + [more[0]]) + mid[1..] + [Mark(k)] == steps + mid + [Mark(k)];
        ExpectedPolled(steps + [more[0]], mid[1..], rest, id, k);
      }
    }
  }

  lemma FreshOf(s: State)
    requires Inv(s)
    ensures Fresh(s)
  {
  }

  lemma ExpectedIs(s: State, id: nat, k: nat)
    requires Expected(s, id, k)
    ensures id in s.tasks && s.loop != Polling(id)
  {
  }

  lemma PendingStays(s: State, step: Step, id: nat)
    requires id in s.pending && !Drains(s, step)
    ensures id in Apply(s, step).pending
  {
    hide AddCalls;
  }

  /** A pending task waits for a drain, and is polled after it. */
  lemma {:induction false} PendingPolled(steps: seq<Step>, pre: seq<Step>, done: bool, mid: seq<Step>, rest: seq<Step>, id: nat)
    requires id in After(INITIAL, steps).pending
    requires NeverDrains(After(INITIAL, steps), pre) && After(INITIAL, steps + pre).loop.Draining?
    requires var k := CallFor(After(INITIAL, steps + pre), id);
             && RunFits(steps + (pre + [Advance(false, done)] + mid + [Mark(k)] + rest))
             && PushesThen(After(INITIAL, steps + pre + [Advance(false, done)] + mid + [Mark(k)]), rest, id)
    ensures var k := CallFor(After(INITIAL, steps + pre), id);
            Polled(After(INITIAL, steps), pre + [Advance(false, done)] + mid + [Mark(k)] + rest, id)
    decreases |pre|
  {
    hide Apply, RunFits, Inv, Roomy, Expected, PushesThen, CallFor;
    var s, k := After(INITIAL, steps), CallFor(After(INITIAL, steps + pre), id);
    var drain := Advance(false, done);
    var more := pre + [drain] + mid + [Mark(k)] + rest;
    AfterSnoc(steps, more[0]);
    FitsMove(steps, more);
    if pre == [] {
      assert steps + pre == steps && more[0] == drain && more[1..] == mid + [Mark(k)] + rest;
      ExactlyOneToken(steps);
      FreshOf(s);
      DrainTakes(s, done, id);
      assert steps + pre + [drain] + mid + [Mark(k)] == (steps + [drain]) + mid + [Mark(k)];
      ExpectedPolled(steps + [drain], mid, rest, id, k);
    } else {
      PendingStays(s, pre[0], id);
      assert (steps + [pre[0]]) + pre[1..] == steps + pre;
      assert more[0] == pre[0] && more[1..] == pre[1..] + [drain] + mid + [Mark(k)] + rest;
      PendingPolled(steps + [pre[0]], pre[1..], done, mid, rest, id);
    }
  }

  /**
   Every spawned task is polled, in every run with at most 256 ids marked at a time: once the loop
   has drained with the lock free, the call of that drain has marked and pushed, and the loop has
   had its actions.
   */
  lemma SpawnPolled(steps: seq<Step>, pre: seq<Step>, done: bool, mid: seq<Step>, rest: seq<Step>)
    requires NeverDrains(After(INITIAL, steps + [Spawn]), pre) && After(INITIAL, steps + [Spawn] + pre).loop.Draining?
    requires var id, s := After(INITIAL, steps).nextId, After(INITIAL, steps + [Spawn] + pre);
             var to := [Advance(false, done)] + mid + [Mark(CallFor(s, id))];
             && RunFits(steps + [Spawn] + (pre + to + rest))
             && PushesThen(After(INITIAL, steps + [Spawn] + pre + to), rest, id)
    ensures var id, s := After(INITIAL, steps).nextId, After(INITIAL, steps + [Spawn] + pre);
            var to := [Advance(false, done)] + mid + [Mark(CallFor(s, id))];
            Polled(After(INITIAL, steps + [Spawn]), pre + to + rest, id)
  {
    hide RunFits, PushesThen, Polled, CallFor, After, NeverDrains;
    var w, id := steps + [Spawn], After(INITIAL, steps).nextId;
    AfterSnoc(steps, Spawn);
    var k := CallFor(After(INITIAL, w + pre), id);
    var drain := Advance(false, done);
    var to := [drain] + mid + [Mark(k)];
    assert pre + to + rest == pre + [drain] + mid + [Mark(k)] + rest;
    assert w + pre + to == w + pre + [drain] + mid + [Mark(k)];
    PendingPolled(w, pre, done, mid, rest, id);
  }

  /** Without such a drain it is never polled. */
  lemma {:induction false} PolledNeedsDrain(s: State, steps: seq<Step>, id: nat)
    requires Fresh(s) && id in s.pending && NeverDrains(s, steps)
    ensures !Polled(s, steps, id)
    decreases |steps|
  {
    hide Apply, Fresh;
    if steps != [] {
      PendingUnpolled(s, steps[0], id);
      PendingStays(s, steps[0], id);
      FreshKept(s, steps[0]);
      PolledNeedsDrain(Apply(s, steps[0]), steps[1..], id);
    }
  }

  lemma PendingUnpolled(s: State, step: Step, id: nat)
    requires Fresh(s) && id in s.pending
    ensures !StartsPoll(s, step, id)
  {
    hide AddCalls;
    var j :| 0 <= j < |s.pending| && s.pending[j] == id;
  }

  /** Task 0 is being polled and task 1 waits in the spawn queue; the next call has number `c`. */
  function Busy(c: nat): State { State([], {}, {0}, 1, map[], c, [1], 2, Polling(0), {}) }

  /** No drain, although the lock is never held, and never more than one mark. */
  ghost predicate Starves(s: State, steps: seq<Step>)
    decreases |steps|
  {
    steps != [] ==>
      && !s.loop.Draining? && (steps[0].Advance? ==> !steps[0].locked) && |s.marks| <= 1
      && Starves(Apply(s, steps[0]), steps[1..])
  }

  lemma StarvesFirst(s: State, step: Step, steps: seq<Step>)
    requires !s.loop.Draining? && (step.Advance? ==> !step.locked) && |s.marks| <= 1 && Starves(Apply(s, step), steps)
    ensures Starves(s, [step] + steps) && LoopActions([step] + steps) == LoopActions(steps) + if step.Advance? then 1 else 0
  {
    assert ([step] + steps)[1..] == steps;
  }

  /** The polled task has woken itself. */
  function Requeued(c: nat): State { State([0], {0}, {0}, 1, map[], c, [1], 2, Polling(0), {0}) }

  lemma SelfWake(c: nat, steps: seq<Step>) returns (more: seq<Step>)
    requires Starves(Requeued(c + 1), steps)
    ensures Starves(Busy(c), more) && LoopActions(more) == LoopActions(steps)
  {
    hide Starves, LoopActions;
    var s0 := Busy(c);
    var s1 := s0.(calls := map[c := Entering(0)], nextCall := c + 1);
    var s2 := s1.(calls := map[c := Marked(0)], marks := {0}, woken := {0});
    assert Without(s2.calls, c) == map[];
    assert Apply(s0, Wake(0)) == s1 && Apply(s1, Mark(c)) == s2 && Apply(s2, Push(c)) == Requeued(c + 1);
    StarvesFirst(s2, Push(c), steps);
    StarvesFirst(s1, Mark(c), [Push(c)] + steps);
    more := [Mark(c)] + ([Push(c)] + steps);
    StarvesFirst(s0, Wake(0), more);
    more := [Wake(0)] + more;
  }

  lemma PolledAgain(c: nat, steps: seq<Step>) returns (more: seq<Step>)
    requires Starves(Busy(c), steps)
    ensures Starves(Requeued(c), more) && LoopActions(more) == LoopActions(steps) + 4
  {
    hide Starves, LoopActions;
    var go, s0 := Advance(false, false), Requeued(c);
    var s1 := s0.(loop := Popping);
    var s2 := s1.(loop := Popped(0), queue := []);
    var s3 := s2.(loop := Unmarked(0), marks := {});
    assert Apply(s0, go) == s1 && Apply(s1, go) == s2 && Apply(s2, go) == s3 && Apply(s3, go) == Busy(c);
    StarvesFirst(s3, go, steps);
    StarvesFirst(s2, go, [go] + steps);
    more := [go] + ([go] + steps);
    StarvesFirst(s1, go, more);
    StarvesFirst(s0, go, [go] + more);
    more := [go] + ([go] + more);
  }

  lemma {:induction false} Starved(c: nat, n: nat) returns (more: seq<Step>)
    ensures Starves(Busy(c), more) && LoopActions(more) == 4 * n
    decreases n
  {
    if n == 0 {
      more := [];
    } else {
      more := Starved(c + 1, n - 1);
      more := PolledAgain(c + 1, more);
      more := SelfWake(c, more);
    }
  }

  lemma {:induction false} StarvesUndrained(s: State, steps: seq<Step>)
    requires Starves(s, steps)
    ensures NeverDrains(s, steps)
    decreases |steps|
  {
    hide Apply;
    if steps != [] {
      StarvesUndrained(Apply(s, steps[0]), steps[1..]);
    }
  }

  /**
   No number of loop actions is enough without a drain, and there may be none: while a task wakes
   itself in each of its polls the loop keeps popping, and a spawned task is never polled.
   */
  lemma SpawnStarves(n: nat) returns (steps: seq<Step>, more: seq<Step>)
    ensures 1 in After(INITIAL, steps).pending && LoopActions(more) >= n
    ensures Starves(After(INITIAL, steps), more) && !Polled(After(INITIAL, steps), more, 1)
  {
    hide After, Starves, Polled, LoopActions;
    steps := FirstPoll();
    AfterSnoc(steps, Spawn);
    steps := steps + [Spawn];
    assert After(INITIAL, steps) == Busy(1);
    more := Starved(1, n);
    ExactlyOneToken(steps);
    StarvesUndrained(Busy(1), more);
    PolledNeedsDrain(Busy(1), more, 1);
  }

  /**
   The processor halts exactly at an idle check that finds the queue empty and no spawned task; with
   one waiting it halts only if the lock of the spawn queue was held by somebody else.
   */
  lemma HaltsExactly(steps: seq<Step>, step: Step)
    ensures After(INITIAL, steps + [step]).loop.Halted? <==>
            var s := After(INITIAL, steps);
            step.Advance? && s.loop.Idle? && s.queue == [] && (step.locked || s.pending == [])
    ensures var s := After(INITIAL, steps + [step]);
            s.loop.Halted? && s.pending != [] ==> step.Advance? && step.locked
  {
    hide After, AddCalls;
    AfterSnoc(steps, step);
  }

  /** Task 0 is polled and woken while it runs. */
  function WokenInPoll(): seq<Step> {
    [Spawn, Advance(false, false), Mark(0), Push(0), Advance(false, false), Advance(false, false),
     Advance(false, false), Wake(0), Mark(1), Push(1)]
  }

  lemma FirstPoll() returns (w: seq<Step>)
    ensures w == WokenInPoll()[..7]
    ensures After(INITIAL, w) == State([], {}, {0}, 1, map[], 1, [], 1, Polling(0), {})
  {
    hide After;
    var go := Advance(false, false);
    var w4 := FirstPush();
    AfterSnoc(w4, go);
    AfterSnoc(w4 + [go], go);
    AfterSnoc(w4 + [go] + [go], go);
    w := w4 + [go] + [go] + [go];
  }

  lemma WokenInPollState()
    ensures After(INITIAL, WokenInPoll()) == State([0], {0}, {0}, 1, map[], 2, [], 1, Polling(0), {0})
  {
    hide After;
    var w7 := FirstPoll();
    AfterSnoc(w7, Wake(0));
    AfterSnoc(w7 + [Wake(0)], Mark(1));
    AfterSnoc(w7 + [Wake(0)] + [Mark(1)], Push(1));
    assert Without(map[1 := Marked(0)], 1) == map[];
    assert w7 + [Wake(0)] + [Mark(1)] + [Push(1)] == WokenInPoll();
  }

  lemma FirstPush() returns (w: seq<Step>)
    ensures w == [Spawn, Advance(false, false), Mark(0), Push(0)]
    ensures After(INITIAL, w) == State([0], {0}, {0}, 1, map[], 1, [], 1, Popping, {0})
  {
    hide After;
    var go := Advance(false, false);
    AfterNone();
    AfterSnoc([], Spawn);
    assert After(INITIAL, [] + [Spawn]) == INITIAL.(pending := [0], nextId := 1);
    AfterSnoc([] + [Spawn], go);
    assert AddCalls(map[], 0, [0]) == map[0 := Entering(0)] by {
      assert [0][1..] == [];
    }
    assert IdSet([0]) == {0};
    var w2 := [] + [Spawn] + [go];
    assert After(INITIAL, w2) == State([], {}, {0}, 1, map[0 := Entering(0)], 1, [], 1, Popping, {});
    AfterSnoc(w2, Mark(0));
    AfterSnoc(w2 + [Mark(0)], Push(0));
    assert Without(map[0 := Marked(0)], 0) == map[];
    w := w2 + [Mark(0)] + [Push(0)];
  }

  lemma AfterNone()
    ensures After(INITIAL, []) == INITIAL
  {
  }

  /** The exception happens: the running poll returns Ready, and the wake is never answered. */
  lemma WakeOfEndedTask(more: seq<Step>)
    requires more != [] && more[0].Advance? && more[0].done
    ensures var s := After(INITIAL, WokenInPoll());
            && 0 in s.woken && 0 in s.tasks && OnItsWay(s, 0)
            && !Polled(s, more, 0)
  {
    var s := After(INITIAL, WokenInPoll());
    WokenInPollState();
    NeverPolled(Apply(s, more[0]), more[1..], 0);
  }

  // ---------------------------------------------------------------------------
  // More than 256 ids at a time
  // ---------------------------------------------------------------------------

  function Upto(n: nat): seq<nat> { seq(n, i => i) }

  lemma {:induction false} Spawns(n: nat)
    ensures After(INITIAL, seq(n, _ => Spawn)) == INITIAL.(pending := Upto(n), nextId := n)
  {
    hide After;
    if n == 0 {
      AfterNone();
    } else {
      var init := seq(n - 1, _ => Spawn);
      Spawns(n - 1);
      AfterSnoc(init, Spawn);
      assert seq(n, _ => Spawn) == init + [Spawn];
      assert Upto(n) == Upto(n - 1) + [n - 1];
    }
  }

  lemma {:induction false} AddCallsAt(calls: map<nat, Call>, next: nat, ids: seq<nat>, k: nat)
    requires forall j :: j in calls ==> j < next
    ensures next <= k < next + |ids| ==>
              k in AddCalls(calls, next, ids) && AddCalls(calls, next, ids)[k] == Entering(ids[k - next])
    decreases |ids|
  {
    if ids != [] {
      var now := calls[next := Entering(ids[0])];
      AddCallsAt(now, next + 1, ids[1..], k);
      AddCallsKeeps(now, next + 1, ids[1..], next);
    }
  }

  /** The first `i` of `n` spawned tasks have been marked and pushed. */
  ghost predicate Filling(s: State, i: nat, n: nat) {
    && s.queue == Upto(i) && s.marks == IdSet(Upto(i)) && s.loop == Popping
    && (forall k :: k in s.calls <==> i <= k < n)
    && (forall k :: k in s.calls ==> s.calls[k] == Entering(k))
    && (forall k :: 0 <= k < n ==> k in s.tasks)
  }

  lemma Drained(n: nat) returns (w: seq<Step>)
    ensures Filling(After(INITIAL, w), 0, n)
  {
    hide After;
    w := seq(n, _ => Spawn);
    Spawns(n);
    var s := After(INITIAL, w);
    AfterSnoc(w, Advance(false, false));
    w := w + [Advance(false, false)];
    AddCallsHolders(map[], 0, Upto(n), 0);
    forall k: nat ensures k in AddCalls(map[], 0, Upto(n)) <==> k < n {
      AddCallsAt(map[], 0, Upto(n), k);
    }
    forall k | 0 <= k < n ensures AddCalls(map[], 0, Upto(n))[k] == Entering(k) && k in IdSet(Upto(n)) {
      AddCallsAt(map[], 0, Upto(n), k);
      assert Upto(n)[k] == k;
    }
    assert Upto(0) == [] && IdSet([]) == {};
  }

  lemma FillOne(s: State, i: nat, n: nat)
    requires Filling(s, i, n) && i < n && i < CAPACITY
    ensures Filling(Apply(Apply(s, Mark(i)), Push(i)), i + 1, n)
  {
    assert i !in IdSet(Upto(i));
    assert Upto(i + 1) == Upto(i) + [i];
    assert IdSet(Upto(i + 1)) == IdSet(Upto(i)) + {i};
  }

  lemma {:induction false} Filled(i: nat, n: nat) returns (w: seq<Step>)
    requires i <= CAPACITY && i <= n
    ensures Filling(After(INITIAL, w), i, n)
  {
    hide After, Apply;
    if i == 0 {
      w := Drained(n);
    } else {
      w := Filled(i - 1, n);
      FillOne(After(INITIAL, w), i - 1, n);
      AfterSnoc(w, Mark(i - 1));
      AfterSnoc(w + [Mark(i - 1)], Push(i - 1));
      w := w + [Mark(i - 1)] + [Push(i - 1)];
    }
  }

  /** The last task finds the queue full, and its mark is taken back. */
  lemma Overflows(s: State)
    requires Filling(s, CAPACITY, CAPACITY + 1)
    ensures var s' := Apply(Apply(Apply(s, Mark(CAPACITY)), Push(CAPACITY)), Unmark(CAPACITY));
            && CAPACITY in s'.tasks && CAPACITY in s'.woken && !OnItsWay(s', CAPACITY) && s'.calls == map[]
  {
    assert CAPACITY !in IdSet(Upto(CAPACITY)) && CAPACITY !in Upto(CAPACITY);
    assert |s.queue| == CAPACITY;
  }

  /**
   When 257 tasks are spawned before the loop drains them, the last one is live and woken, and
   neither queued nor in the hands of any call: its wake is lost.
   */
  lemma SpawnStorm() returns (steps: seq<Step>)
    ensures var s := After(INITIAL, steps);
            && CAPACITY in s.tasks && CAPACITY in s.woken && !OnItsWay(s, CAPACITY) && s.calls == map[]
  {
    hide After, Apply;
    steps := Filled(CAPACITY, CAPACITY + 1);
    Overflows(After(INITIAL, steps));
    AfterSnoc(steps, Mark(CAPACITY));
    AfterSnoc(steps + [Mark(CAPACITY)], Push(CAPACITY));
    AfterSnoc(steps + [Mark(CAPACITY)] + [Push(CAPACITY)], Unmark(CAPACITY));
    steps := steps + [Mark(CAPACITY)] + [Push(CAPACITY)] + [Unmark(CAPACITY)];
  }
}

/**
 The timer list of kernel/src/time/sleep.rs: `Sleep` futures register an entry in a shared
 list, the timer interrupt scans the list with `try_lock` and skips the scan when a poll holds
 the lock. Every lock section and every atomic access is one step of the transition system.
 */
module Timers {
  import opened Options

  const U64_MAX: nat := 0xFFFF_FFFF_FFFF_FFFF
  const TICKS_PER_SEC: nat := 100

  /** A `TimerEntry`, shared between its `Sleep` and the list. */
  datatype Entry = Entry(deadline: nat, waker: nat, fired: bool)

  // ---------------------------------------------------------------------------
  // The scan of `advance`
  // ---------------------------------------------------------------------------

  datatype Scan = Scan(entries: seq<Entry>, kept: seq<nat>, woken: seq<nat>)

  ghost predicate Indices(timers: seq<nat>, n: nat) {
    forall k :: 0 <= k < |timers| ==> timers[k] < n
  }

  predicate Due(e: Entry, now: nat) {
    !e.fired && e.deadline <= now
  }

  /** `retain` visits the list in order; an entry that is due is marked, woken and dropped. */
  function Scanned(entries: seq<Entry>, timers: seq<nat>, now: nat): (r: Scan)
    requires Indices(timers, |entries|)
    ensures |r.entries| == |entries| && Indices(r.woken, |entries|)
    decreases |timers|
  {
    if timers == [] then Scan(entries, [], [])
    else
      var i := timers[0];
      if Due(entries[i], now) then
        var r := Scanned(entries[i := entries[i].(fired := true)], timers[1..], now);
        r.(woken := [i] + r.woken)
      else
        var r := Scanned(entries, timers[1..], now);
        r.(kept := [i] + r.kept)
  }

  method RetainDue(entries: seq<Entry>, timers: seq<nat>, now: nat) returns (r: Scan)
    requires Indices(timers, |entries|)
    ensures r == Scanned(entries, timers, now)
  {
    var es, kept, woken := entries, [], [];
    for k := 0 to |timers|
      invariant |es| == |entries|
      invariant var rest := Scanned(es, timers[k..], now);
                Scanned(entries, timers, now) == Scan(rest.entries, kept + rest.kept, woken + rest.woken)
    {
      var i := timers[k];
      assert timers[k..][1..] == timers[k + 1..];
      ghost var rest := Scanned(es, timers[k..], now);
      if Due(es[i], now) {
        es := es[i := es[i].(fired := true)];
        woken := woken + [i];
        assert woken[..|woken| - 1] + rest.woken == woken + Scanned(es, timers[k + 1..], now).woken;
      } else {
        kept := kept + [i];
        assert kept[..|kept| - 1] + rest.kept == kept + Scanned(es, timers[k + 1..], now).kept;
      }
    }
    r := Scan(es, kept, woken);
  }

  ghost predicate Distinct(s: seq<nat>) {
    forall i, j :: 0 <= i < j < |s| ==> s[i] != s[j]
  }

  /** On a list without repetition the scan is a partition by `Due`. */
  lemma {:induction false} ScanPartitions(entries: seq<Entry>, timers: seq<nat>, now: nat)
    requires Indices(timers, |entries|) && Distinct(timers)
    ensures var r := Scanned(entries, timers, now);
            && Distinct(r.kept) && Distinct(r.woken)
            && Indices(r.kept, |entries|) && Indices(r.woken, |entries|)
            && (forall i :: i in r.woken <==> i in timers && Due(entries[i], now))
            && (forall i :: i in r.kept <==> i in timers && !Due(entries[i], now))
            && (forall i: nat :: i < |entries| ==>
                  r.entries[i] == if i in r.woken then entries[i].(fired := true) else entries[i])
    decreases |timers|
  {
    if timers != [] {
      var i := timers[0];
      var rest := timers[1..];
      assert timers == [i] + rest;
      assert i !in rest;
      if Due(entries[i], now) {
        ScanPartitions(entries[i := entries[i].(fired := true)], rest, now);
      } else {
        ScanPartitions(entries, rest, now);
      }
    }
  }

  // ---------------------------------------------------------------------------
  // The transition system
  // ---------------------------------------------------------------------------

  /** Where a poll stands: between polls, past the clock check, or inside the list's lock section. */
  datatype Phase = Idle | Checked(waker: nat) | Locked(waker: nat)

  datatype Sleep = Sleep(deadline: nat, entry: Option<nat>, phase: Phase)

  datatype Wake = Wake(entry: nat, waker: nat, tick: nat)

  datatype State = State(
    now: nat,                   // NOW
    entries: seq<Entry>,        // every entry ever registered
    timers: seq<nat>,           // TIMERS: the entries still in the list
    lock: Option<nat>,          // the sleep whose poll holds TIMERS
    sleeps: map<nat, Sleep>,
    // history
    ticks: seq<bool>,           // for each tick, whether the list was scanned
    regAt: seq<nat>,            // the clock when each entry was pushed
    wakes: seq<Wake>,           // every wake, in order
    polled: map<nat, nat>,      // the waker of the latest poll that did not return Ready
    ready: map<nat, nat>)       // the clock when a sleep first returned Ready

  const INITIAL: State := State(0, [], [], None, map[], [], [], [], map[], map[])

  datatype Step =
    | Create(id: nat, ms: nat)          // sleep_ms
    | PollCheck(id: nat, waker: nat)    // the clock comparison, or the re-poll that updates the waker
    | PollLock(id: nat)                 // TIMERS.lock()
    | PollPush(id: nat)                 // push_back and release
    | Tick                              // advance()

  function SatMul(a: nat, b: nat): nat { if a * b > U64_MAX then U64_MAX else a * b }

  function SatAdd(a: nat, b: nat): nat { if a + b > U64_MAX then U64_MAX else a + b }

  function Deadline(now: nat, ms: nat): nat {
    var ticks := SatMul(ms, TICKS_PER_SEC) / 1000;
    SatAdd(now, if ticks > 1 then ticks else 1)
  }

  function WakeAll(entries: seq<Entry>, woken: seq<nat>, tick: nat): (r: seq<Wake>)
    requires Indices(woken, |entries|)
    ensures |r| == |woken| && forall k :: 0 <= k < |r| ==> r[k] == Wake(woken[k], entries[woken[k]].waker, tick)
  {
    seq(|woken|, k requires 0 <= k < |woken| => Wake(woken[k], entries[woken[k]].waker, tick))
  }

  function Apply(s: State, step: Step): State
    requires Indices(s.timers, |s.entries|)
  {
    match step
    case Create(id, ms) =>
      if id in s.sleeps then s else s.(sleeps := s.sleeps[id := Sleep(Deadline(s.now, ms), None, Idle)])
    case PollCheck(id, waker) =>
      if id !in s.sleeps || !s.sleeps[id].phase.Idle? then s
      else
        var sl := s.sleeps[id];
        if s.now >= sl.deadline then (if id in s.ready then s else s.(ready := s.ready[id := s.now]))
        else if sl.entry.None? then
          s.(sleeps := s.sleeps[id := sl.(phase := Checked(waker))], polled := s.polled[id := waker])
        else if sl.entry.value >= |s.entries| then s
        else
          s.(entries := s.entries[sl.entry.value := s.entries[sl.entry.value].(waker := waker)],
             polled := s.polled[id := waker])
    case PollLock(id) =>
      if id !in s.sleeps || !s.sleeps[id].phase.Checked? || s.lock.Some? then s
      else s.(lock := Some(id), sleeps := s.sleeps[id := s.sleeps[id].(phase := Locked(s.sleeps[id].phase.waker))])
    case PollPush(id) =>
      if s.lock != Some(id) || id !in s.sleeps || !s.sleeps[id].phase.Locked? then s
      else
        var sl := s.sleeps[id];
        s.(lock := None,
           entries := s.entries + [Entry(sl.deadline, sl.phase.waker, false)],
           timers := s.timers + [|s.entries|],
           regAt := s.regAt + [s.now],
           sleeps := s.sleeps[id := sl.(entry := Some(|s.entries|), phase := Idle)])
    case Tick =>
      var now := s.now + 1;
      if s.lock.Some? then s.(now := now, ticks := s.ticks + [false])
      else
        var r := Scanned(s.entries, s.timers, now);
        s.(now := now, ticks := s.ticks + [true], entries := r.entries, timers := r.kept,
           wakes := s.wakes + WakeAll(s.entries, r.woken, now))
  }

  // ---------------------------------------------------------------------------
  // The specification of one entry, from the tick history alone
  // ---------------------------------------------------------------------------

  /** The first tick after registration that was scanned and not before the deadline. */
  function FirstDue(ticks: seq<bool>, reg: nat, deadline: nat): Option<nat>
    decreases |ticks|
  {
    if |ticks| <= reg then None
    else
      var before := FirstDue(ticks[..|ticks| - 1], reg, deadline);
      if before.Some? then before
      else if |ticks| >= deadline && ticks[|ticks| - 1] then Some(|ticks|)
      else None
  }

  ghost predicate DueTick(ticks: seq<bool>, reg: nat, deadline: nat, t: nat) {
    reg < t <= |ticks| && deadline <= t && ticks[t - 1]
  }

  lemma {:induction false} FirstDueIsLeast(ticks: seq<bool>, reg: nat, deadline: nat)
    ensures var r := FirstDue(ticks, reg, deadline);
            && (r.Some? ==> DueTick(ticks, reg, deadline, r.value))
            && (forall t: nat :: DueTick(ticks, reg, deadline, t) ==> r.Some? && r.value <= t)
    decreases |ticks|
  {
    if |ticks| > reg {
      var shorter := ticks[..|ticks| - 1];
      FirstDueIsLeast(shorter, reg, deadline);
      forall t: nat | DueTick(ticks, reg, deadline, t)
        ensures FirstDue(ticks, reg, deadline).Some? && FirstDue(ticks, reg, deadline).value <= t
      {
        if t < |ticks| {
          assert DueTick(shorter, reg, deadline, t);
        }
      }
    }
  }

  function WakesOf(log: seq<Wake>, i: nat): seq<nat> {
    if log == [] then []
    else WakesOf(log[..|log| - 1], i) + (if log[|log| - 1].entry == i then [log[|log| - 1].tick] else [])
  }

  function Once(o: Option<nat>): seq<nat> {
    if o.Some? then [o.value] else []
  }

  // ---------------------------------------------------------------------------
  // The invariant
  // ---------------------------------------------------------------------------

  ghost predicate Shape(s: State) {
    && |s.ticks| == s.now && |s.regAt| == |s.entries|
    && Indices(s.timers, |s.entries|) && Distinct(s.timers)
    && (forall k :: 0 <= k < |s.wakes| ==> s.wakes[k].entry < |s.entries|)
  }

  /** The entry is in the list while it waits, and its wakes are exactly its first due tick. */
  ghost predicate Exact(s: State, i: nat)
    requires Shape(s) && i < |s.entries|
  {
    var first := FirstDue(s.ticks, s.regAt[i], s.entries[i].deadline);
    && s.regAt[i] <= s.now
    && (i in s.timers <==> !s.entries[i].fired)
    && (s.entries[i].fired <==> first.Some?)
    && WakesOf(s.wakes, i) == Once(first)
  }

  ghost predicate SleepOk(s: State, id: nat)
    requires Shape(s) && id in s.sleeps
  {
    var sl := s.sleeps[id];
    && (sl.entry.Some? ==> sl.entry.value < |s.entries| && s.entries[sl.entry.value].deadline == sl.deadline)
    && (sl.phase.Locked? <==> s.lock == Some(id))
    && (!sl.phase.Idle? ==> sl.entry.None? && id in s.polled && s.polled[id] == sl.phase.waker)
    && (sl.entry.Some? ==> id in s.polled && s.entries[sl.entry.value].waker == s.polled[id])
  }

  /** No two sleeps share an entry. */
  ghost predicate OwnEntries(s: State) {
    forall a, b :: a in s.sleeps && b in s.sleeps && a != b && s.sleeps[a].entry.Some? ==>
      s.sleeps[a].entry != s.sleeps[b].entry
  }

  ghost predicate Inv(s: State) {
    && Shape(s)
    && (forall i: nat :: i < |s.entries| ==> Exact(s, i))
    && (forall id :: id in s.sleeps ==> SleepOk(s, id))
    && OwnEntries(s)
    && (s.lock.Some? ==> s.lock.value in s.sleeps)
    && (forall id :: id in s.ready ==> id in s.sleeps && s.sleeps[id].deadline <= s.ready[id] <= s.now)
  }

  lemma {:induction false} WakesOfConcat(log: seq<Wake>, entries: seq<Entry>, woken: seq<nat>, tick: nat, i: nat)
    requires Distinct(woken) && Indices(woken, |entries|)
    ensures WakesOf(log + WakeAll(entries, woken, tick), i) == WakesOf(log, i) + (if i in woken then [tick] else [])
    decreases |woken|
  {
    var more := WakeAll(entries, woken, tick);
    if woken == [] {
      assert log + more == log;
    } else {
      var init := woken[..|woken| - 1];
      var last := woken[|woken| - 1];
      assert woken == init + [last];
      assert (log + more)[..|log + more| - 1] == log + WakeAll(entries, init, tick);
      WakesOfConcat(log, entries, init, tick, i);
    }
  }

  lemma {:induction false} NoWakes(log: seq<Wake>, i: nat)
    requires forall k :: 0 <= k < |log| ==> log[k].entry != i
    ensures WakesOf(log, i) == []
  {
    if log != [] {
      NoWakes(log[..|log| - 1], i);
    }
  }

  lemma TickShape(s: State)
    requires Shape(s)
    ensures Shape(Apply(s, Tick))
  {
    if s.lock.None? {
      ScanPartitions(s.entries, s.timers, s.now + 1);
    }
  }

  /** What a scan does to one entry. */
  lemma ScanAt(entries: seq<Entry>, timers: seq<nat>, now: nat, i: nat)
    requires Indices(timers, |entries|) && Distinct(timers) && i < |entries|
    ensures var r := Scanned(entries, timers, now);
            && Distinct(r.woken)
            && (i in r.woken <==> i in timers && Due(entries[i], now))
            && (i in r.kept <==> i in timers && !Due(entries[i], now))
            && r.entries[i] == if i in r.woken then entries[i].(fired := true) else entries[i]
  {
    hide Scanned, Due;
    ScanPartitions(entries, timers, now);
  }

  lemma FirstDueSnoc(ticks: seq<bool>, scanned: bool, reg: nat, deadline: nat)
    ensures FirstDue(ticks + [scanned], reg, deadline) ==
            var before := FirstDue(ticks, reg, deadline);
            if before.Some? then before
            else if scanned && reg < |ticks| + 1 && deadline <= |ticks| + 1 then Some(|ticks| + 1)
            else None
  {
    assert (ticks + [scanned])[..|ticks|] == ticks;
  }

  lemma TickExact(s: State, i: nat)
    requires Shape(s) && Shape(Apply(s, Tick)) && i < |s.entries| && Exact(s, i)
    ensures |Apply(s, Tick).entries| == |s.entries| && Exact(Apply(s, Tick), i)
    ensures Apply(s, Tick).entries[i].deadline == s.entries[i].deadline
    ensures Apply(s, Tick).entries[i].waker == s.entries[i].waker
  {
    hide Scanned, FirstDue, WakesOf, Indices, Distinct;
    FirstDueSnoc(s.ticks, s.lock.None?, s.regAt[i], s.entries[i].deadline);
    if s.lock.None? {
      ScanAt(s.entries, s.timers, s.now + 1, i);
      WakesOfConcat(s.wakes, s.entries, Scanned(s.entries, s.timers, s.now + 1).woken, s.now + 1, i);
    }
  }

  lemma TickKeeps(s: State)
    requires Inv(s)
    ensures Inv(Apply(s, Tick))
  {
    var s' := Apply(s, Tick);
    TickShape(s);
    forall i: nat | i < |s.entries| ensures Exact(s', i) && s'.entries[i] == s.entries[i].(fired := s'.entries[i].fired) {
      TickExact(s, i);
    }
    hide Exact;
    forall id | id in s'.sleeps ensures SleepOk(s', id) {
      assert SleepOk(s, id);
    }
  }

  lemma PushShape(s: State, id: nat)
    requires Inv(s)
    ensures Shape(Apply(s, PollPush(id))) && OwnEntries(Apply(s, PollPush(id)))
  {
    hide Exact, Scanned;
    forall j | j in s.sleeps ensures SleepOk(s, j) {
    }
  }

  lemma PushSleep(s: State, id: nat, j: nat)
    requires Inv(s) && Shape(Apply(s, PollPush(id))) && j in Apply(s, PollPush(id)).sleeps
    ensures SleepOk(Apply(s, PollPush(id)), j)
  {
    hide Exact, Scanned, OwnEntries, Indices, Distinct;
    assert j in s.sleeps && SleepOk(s, j);
  }

  lemma PushExact(s: State, id: nat, i: nat)
    requires Inv(s) && Shape(Apply(s, PollPush(id))) && i < |Apply(s, PollPush(id)).entries|
    ensures Exact(Apply(s, PollPush(id)), i)
  {
    hide Scanned, SleepOk, OwnEntries;
    if i < |s.entries| {
      assert Exact(s, i);
    } else {
      NoWakes(s.wakes, i);
    }
  }

  lemma PushKeeps(s: State, id: nat)
    requires Inv(s)
    ensures Inv(Apply(s, PollPush(id)))
  {
    hide Exact, SleepOk, Scanned, OwnEntries;
    var s' := Apply(s, PollPush(id));
    PushShape(s, id);
    forall i: nat | i < |s'.entries| ensures Exact(s', i) {
      PushExact(s, id, i);
    }
    forall j | j in s'.sleeps ensures SleepOk(s', j) {
      PushSleep(s, id, j);
    }
  }

  lemma CheckSleep(s: State, id: nat, waker: nat, j: nat)
    requires Inv(s) && Shape(Apply(s, PollCheck(id, waker))) && j in s.sleeps
    ensures j in Apply(s, PollCheck(id, waker)).sleeps && SleepOk(Apply(s, PollCheck(id, waker)), j)
  {
    hide Exact, Scanned, Indices, Distinct;
    assert SleepOk(s, j);
    if id in s.sleeps && id != j {
      assert s.sleeps[id].entry.Some? ==> s.sleeps[id].entry != s.sleeps[j].entry;
    }
  }

  lemma CheckOwn(s: State, id: nat, waker: nat)
    requires Inv(s)
    ensures OwnEntries(Apply(s, PollCheck(id, waker)))
  {
    hide Exact, SleepOk, Scanned, Indices, Distinct;
    var s' := Apply(s, PollCheck(id, waker));
    forall a, b | a in s'.sleeps && b in s'.sleeps && a != b && s'.sleeps[a].entry.Some?
      ensures s'.sleeps[a].entry != s'.sleeps[b].entry
    {
      assert s'.sleeps[a].entry == s.sleeps[a].entry && s'.sleeps[b].entry == s.sleeps[b].entry;
    }
  }

  lemma CheckKeeps(s: State, id: nat, waker: nat)
    requires Inv(s)
    ensures Inv(Apply(s, PollCheck(id, waker)))
  {
    hide Exact, SleepOk, OwnEntries, Scanned, Indices, Distinct;
    CheckEntries(s, id, waker);
    CheckOwn(s, id, waker);
    var s' := Apply(s, PollCheck(id, waker));
    SameEntries(s, s');
    forall j | j in s'.sleeps ensures SleepOk(s', j) {
      CheckSleep(s, id, waker, j);
    }
  }

  lemma CheckEntries(s: State, id: nat, waker: nat)
    requires Inv(s)
    ensures var s' := Apply(s, PollCheck(id, waker));
            && |s'.entries| == |s.entries|
            && (forall i :: 0 <= i < |s.entries| ==>
                  s'.entries[i].fired == s.entries[i].fired && s'.entries[i].deadline == s.entries[i].deadline)
  {
    hide Exact, SleepOk, Scanned;
  }

  /** A step that changes nothing but wakers, sleeps and the lock keeps every entry exact. */
  lemma SameEntries(s: State, s': State)
    requires Inv(s)
    requires s'.now == s.now && s'.timers == s.timers && s'.ticks == s.ticks && s'.regAt == s.regAt && s'.wakes == s.wakes
    requires |s'.entries| == |s.entries|
    requires forall i :: 0 <= i < |s.entries| ==>
               s'.entries[i].fired == s.entries[i].fired && s'.entries[i].deadline == s.entries[i].deadline
    ensures Shape(s') && forall i: nat :: i < |s'.entries| ==> Exact(s', i)
  {
    hide FirstDue, WakesOf;
    forall i: nat | i < |s'.entries| ensures Exact(s', i) {
      assert Exact(s, i);
    }
  }

  lemma CreateKeeps(s: State, id: nat, ms: nat)
    requires Inv(s)
    ensures Inv(Apply(s, Create(id, ms)))
  {
    hide Exact, Scanned, Indices, Distinct, Deadline;
    var s' := Apply(s, Create(id, ms));
    SameEntries(s, s');
    forall j | j in s'.sleeps ensures SleepOk(s', j) {
      assert j in s.sleeps ==> SleepOk(s, j);
    }
  }

  lemma LockKeeps(s: State, id: nat)
    requires Inv(s)
    ensures Inv(Apply(s, PollLock(id)))
  {
    hide Exact, Scanned, Indices, Distinct;
    var s' := Apply(s, PollLock(id));
    SameEntries(s, s');
    forall j | j in s'.sleeps ensures SleepOk(s', j) {
      assert SleepOk(s, j);
    }
  }

  lemma StepKeeps(s: State, step: Step)
    requires Inv(s)
    ensures Inv(Apply(s, step))
  {
    hide Inv, Apply;
    match step
    case Tick => TickKeeps(s);
    case PollPush(id) => PushKeeps(s, id);
    case PollCheck(id, waker) => CheckKeeps(s, id, waker);
    case Create(id, ms) => CreateKeeps(s, id, ms);
    case PollLock(id) => LockKeeps(s, id);
  }

  /** The state after any interleaving of creations, polls and ticks. */
  function After(steps: seq<Step>): (s: State)
    ensures Inv(s)
  {
    if steps == [] then INITIAL
    else
      var before := After(steps[..|steps| - 1]);
      StepKeeps(before, steps[|steps| - 1]);
      Apply(before, steps[|steps| - 1])
  }

  // ---------------------------------------------------------------------------
  // The protocol's promises, for every run
  // ---------------------------------------------------------------------------

  /**
   Every registered entry is woken exactly once and exactly at the first scanned tick that is
   both after its registration and not before its deadline; until that tick it is not woken.
   */
  lemma WokenOnceAtFirstDueTick(steps: seq<Step>, i: nat)
    requires i < |After(steps).entries|
    ensures var s := After(steps);
            var d := s.entries[i].deadline;
            && (forall t: nat :: WakesOf(s.wakes, i) == [t] <==>
                  DueTick(s.ticks, s.regAt[i], d, t) && forall u: nat :: u < t ==> !DueTick(s.ticks, s.regAt[i], d, u))
            && (WakesOf(s.wakes, i) == [] <==> forall u: nat :: !DueTick(s.ticks, s.regAt[i], d, u))
            && |WakesOf(s.wakes, i)| <= 1
  {
    hide After, FirstDue, WakesOf, SleepOk;
    var s := After(steps);
    assert Exact(s, i);
    FirstDueIsLeast(s.ticks, s.regAt[i], s.entries[i].deadline);
  }

  /** A wake goes to the waker of the latest poll of the sleep. */
  lemma WakesLatestPoll(steps: seq<Step>, id: nat, k: nat)
    requires id in After(steps).sleeps && After(steps).sleeps[id].entry.Some?
    requires |After(steps).wakes| <= k < |After(steps + [Tick]).wakes|
    requires After(steps + [Tick]).wakes[k].entry == After(steps).sleeps[id].entry.value
    ensures id in After(steps).polled && After(steps + [Tick]).wakes[k].waker == After(steps).polled[id]
  {
    hide Exact, Scanned;
    var s := After(steps);
    assert (steps + [Tick])[..|steps|] == steps;
    assert SleepOk(s, id);
  }

  /** A sleep returns Ready only at or after its deadline. */
  lemma NeverEarly(steps: seq<Step>, id: nat)
    ensures var s := After(steps);
            id in s.ready ==> id in s.sleeps && s.sleeps[id].deadline <= s.ready[id] <= s.now
  {
    assert Inv(After(steps));
  }

  /**
   The deadline is strictly after the creation. Short of saturation it is at least `ms` away if
   and only if `ms` is at most one tick or a whole number of ticks, and never a whole tick short;
   and it is never later than `ms` in ticks of 10 ms, except that it is one tick away at least.
   */
  lemma DeadlineExactly(now: nat, ms: nat)
    requires now < U64_MAX
    ensures now < Deadline(now, ms) <= U64_MAX
    ensures ms * TICKS_PER_SEC <= U64_MAX && Deadline(now, ms) < U64_MAX ==>
              && ((Deadline(now, ms) - now) * 1000 >= ms * TICKS_PER_SEC <==>
                  ms * TICKS_PER_SEC <= 1000 || ms * TICKS_PER_SEC % 1000 == 0)
              && (Deadline(now, ms) - now) * 1000 > ms * TICKS_PER_SEC - 1000
              && ((Deadline(now, ms) - now) * 10 <= ms || (ms < 10 && Deadline(now, ms) == now + 1))
  {
  }

  /** Fifteen milliseconds are cut to one tick of ten. */
  lemma ShortSleep(now: nat)
    requires now + 1 < U64_MAX
    ensures Deadline(now, 15) == now + 1 && (Deadline(now, 15) - now) * 1000 < 15 * TICKS_PER_SEC
  {
  }

  /** Once an entry has been woken, the next poll of its sleep is Ready. */
  lemma WokenThenReady(steps: seq<Step>, id: nat, waker: nat)
    requires id in After(steps).sleeps && After(steps).sleeps[id].entry.Some?
    requires WakesOf(After(steps).wakes, After(steps).sleeps[id].entry.value) != []
    ensures id in After(steps + [PollCheck(id, waker)]).ready
  {
    var s := After(steps);
    var i := s.sleeps[id].entry.value;
    assert SleepOk(s, id) && Exact(s, i);
    FirstDueIsLeast(s.ticks, s.regAt[i], s.entries[i].deadline);
    assert (steps + [PollCheck(id, waker)])[..|steps|] == steps;
  }
}

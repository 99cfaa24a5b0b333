/**
 The process table of kernel/src/task/process.rs with signal delivery (signal.rs) and the timer
 hook (preempt.rs). `Table` is the state, the functions on it are the specification of each
 kernel entry point, `ProcessTable` is the imperative form, and the lemmas are about every run.
 */
module Scheduler {
  import opened Options
  import opened Fifo

  datatype Signal = Int | Kill | Term | Segv | Ill | Bus

  function Num(s: Signal): nat {
    match s
    case Int => 2
    case Ill => 4
    case Bus => 7
    case Kill => 9
    case Segv => 11
    case Term => 15
  }

  function ExitCode(s: Signal): int { 128 + Num(s) }

  datatype ProcState = Runnable | Sleeping | Zombie(code: int)

  datatype Child = Child(pid: nat, code: int)

  datatype Proc = Proc(parent: nat, state: ProcState, exited: seq<Child>, signals: seq<Signal>)

  /** Ghost record of one call of `exit_current`: `told` says whether the parent was in the table. */
  datatype Exit = Exit(child: Child, parent: nat, told: bool)

  datatype Reap = Reap(parent: nat, child: Child)

  datatype Table = Table(
    procs: map<nat, Proc>,
    queue: seq<nat>,        // `runnable`
    current: nat,
    nextPid: nat,
    user: bool,             // a process is running, as opposed to the kernel shell
    // history
    exits: seq<Exit>,
    reaps: seq<Reap>)

  const BOOT: Table := Table(map[], [], 0, 1, false, [], [])

  // ---------------------------------------------------------------------------
  // Specification of the kernel entry points
  // ---------------------------------------------------------------------------

  predicate IsRunnable(procs: map<nat, Proc>, pid: nat) {
    pid in procs && procs[pid].state.Runnable?
  }

  /** `pick_next` drops entries until it finds a runnable process. */
  function Elected(procs: map<nat, Proc>, queue: seq<nat>): (r: (Option<nat>, seq<nat>))
    ensures r.0.Some? ==> IsRunnable(procs, r.0.value) && r.0.value in queue
    ensures r.0.None? ==> r.1 == [] && forall k :: 0 <= k < |queue| ==> !IsRunnable(procs, queue[k])
  {
    if queue == [] then (None, [])
    else if IsRunnable(procs, queue[0]) then (Some(queue[0]), queue[1..])
    else Elected(procs, queue[1..])
  }

  function Inserted(t: Table, p: Proc): Table {
    t.(procs := t.procs[t.nextPid := p],
       queue := if p.state.Runnable? then t.queue + [t.nextPid] else t.queue,
       nextPid := t.nextPid + 1)
  }

  /** `spawn_from_elf`: called by the shell for pid 0 or by `sys_exec` for the current process. */
  function Spawned(t: Table, parent: nat): Table {
    Inserted(t, Proc(parent, Runnable, [], []))
  }

  function Forked(t: Table): Table {
    if t.current in t.procs then Inserted(t, Proc(t.current, Runnable, [], [])) else t
  }

  /** The table part of `exit_current`. */
  function Exited(t: Table, code: int): Table
    requires t.current in t.procs
  {
    var pid := t.current;
    var p := t.procs[pid];
    var procs1 := t.procs[pid := p.(state := Zombie(code))];
    var told := p.parent in procs1;
    var t1 := t.(procs := procs1, exits := t.exits + [Exit(Child(pid, code), p.parent, told)]);
    if !told then t1
    else
      var par := procs1[p.parent];
      var par1 := par.(exited := par.exited + [Child(pid, code)]);
      if par.state.Sleeping?
      then t1.(procs := procs1[p.parent := par1.(state := Runnable)], queue := t.queue + [p.parent])
      else t1.(procs := procs1[p.parent := par1])
  }

  /** `schedule_next`; with nobody runnable control goes back to the kernel and `current` stays. */
  function Scheduled(t: Table): Table {
    var (next, rest) := Elected(t.procs, t.queue);
    if next.None? then t.(queue := rest, user := false) else t.(queue := rest, current := next.value, user := true)
  }

  /** `wait_any` for the current process. */
  function Waited(t: Table): (r: (Table, Option<Child>)) {
    if t.current !in t.procs then (t, None)
    else
      var p := t.procs[t.current];
      if p.exited != [] then
        var c := p.exited[0];
        var procs1 := t.procs[t.current := p.(exited := p.exited[1..])];
        (t.(procs := procs1 - {c.pid}, reaps := t.reaps + [Reap(t.current, c)]), Some(c))
      else (t.(procs := t.procs[t.current := p.(state := Sleeping)]), None)
  }

  function Killed(t: Table, pid: nat, sig: Signal): Table {
    if pid !in t.procs then t
    else
      var p := t.procs[pid];
      var p1 := p.(signals := p.signals + [sig]);
      if p.state.Sleeping?
      then t.(procs := t.procs[pid := p1.(state := Runnable)], queue := t.queue + [pid])
      else t.(procs := t.procs[pid := p1])
  }

  /** `deliver_pending`: a pending signal of the current process ends it. */
  predicate Delivers(t: Table) {
    t.current != 0 && t.current in t.procs && t.procs[t.current].signals != []
  }

  function SignalTaken(t: Table): Table
    requires t.current in t.procs && t.procs[t.current].signals != []
  {
    var p := t.procs[t.current];
    t.(procs := t.procs[t.current := p.(signals := p.signals[1..])])
  }

  /** `reschedule`: requeue the current process if runnable, then elect. */
  function Rescheduled(t: Table): Table {
    var queue1 := if t.current != 0 && IsRunnable(t.procs, t.current) then t.queue + [t.current] else t.queue;
    var (next, rest) := Elected(t.procs, queue1);
    if next.None? then t.(queue := rest) else t.(queue := rest, current := next.value)
  }

  /** `on_timer`: delivery first, then a reschedule when the tick interrupted ring 3. */
  function Ticked(t: Table, ring3: bool): Table {
    if Delivers(t) then
      Scheduled(Exited(SignalTaken(t), ExitCode(t.procs[t.current].signals[0])))
    else if ring3 then Rescheduled(t)
    else t
  }

  datatype Step =
    | DoSpawn                        // the shell (parent 0) or sys_exec (parent = current)
    | DoFork
    | DoExit(code: int)              // sys_exit or a fault in ring 3
    | DoWait
    | DoKill(pid: nat, sig: Signal)
    | DoTick(ring3: bool)
    | DoRun                          // the shell hands over to the scheduler

  /** Steps that only a running process, or only the shell, can cause. */
  predicate Enabled(t: Table, step: Step) {
    match step
    case DoFork => t.user
    case DoExit(_) => t.user && t.current in t.procs
    case DoWait => t.user
    case DoTick(ring3) => ring3 ==> t.user
    case DoRun => !t.user
    case _ => true
  }

  function Apply(t: Table, step: Step): Table {
    if !Enabled(t, step) then t
    else match step
      case DoSpawn => Spawned(t, if t.user then t.current else 0)
      case DoFork => Forked(t)
      case DoExit(code) => Scheduled(Exited(t, code))
      case DoWait => Waited(t).0
      case DoKill(pid, sig) => Killed(t, pid, sig)
      case DoTick(ring3) => Ticked(t, ring3)
      case DoRun => Scheduled(t)
  }

  // ---------------------------------------------------------------------------
  // The invariant
  // ---------------------------------------------------------------------------

  function ReapsOf(reaps: seq<Reap>, parent: nat): seq<Child> {
    if reaps == [] then []
    else
      var r := reaps[|reaps| - 1];
      ReapsOf(reaps[..|reaps| - 1], parent) + (if r.parent == parent then [r.child] else [])
  }

  function ToldTo(exits: seq<Exit>, parent: nat): seq<Child> {
    if exits == [] then []
    else
      var e := exits[|exits| - 1];
      ToldTo(exits[..|exits| - 1], parent) + (if e.told && e.parent == parent then [e.child] else [])
  }

  ghost predicate Pids(t: Table) {
    && t.nextPid > 0 && 0 !in t.procs && t.current < t.nextPid
    && (forall p :: p in t.procs ==> t.procs[p].parent < p < t.nextPid)
    && (forall k :: 0 <= k < |t.exits| ==> t.exits[k].child.pid < t.nextPid && t.exits[k].parent < t.nextPid)
    && (forall k :: 0 <= k < |t.reaps| ==> t.reaps[k].parent < t.nextPid)
  }

  /** Every runnable process is current or queued. */
  ghost predicate Covered(t: Table) {
    forall p :: IsRunnable(t.procs, p) ==> p in t.queue || (t.user && p == t.current)
  }

  /** A sleeping process has no exited child left to report. */
  ghost predicate Quiet(t: Table) {
    forall p :: p in t.procs && t.procs[p].state.Sleeping? ==> t.procs[p].exited == []
  }

  ghost predicate CurrentOk(t: Table) {
    if t.user then t.current in t.procs && !t.procs[t.current].state.Zombie?
    else t.current in t.procs ==> t.procs[t.current].state.Zombie?
  }

  /** The children a process may still reap are zombies of its own, each listed once. */
  ghost predicate ListOk(t: Table, p: nat)
    requires p in t.procs
  {
    var l := t.procs[p].exited;
    && (forall i :: 0 <= i < |l| ==>
          l[i].pid in t.procs && t.procs[l[i].pid].state == Zombie(l[i].code) && t.procs[l[i].pid].parent == p)
    && (forall i, j :: 0 <= i < j < |l| ==> l[i].pid != l[j].pid)
  }

  /** What a process has reaped, followed by what it may still reap, is what it was told, in order. */
  ghost predicate Ledger(t: Table, p: nat)
    requires p in t.procs
  {
    ReapsOf(t.reaps, p) + t.procs[p].exited == ToldTo(t.exits, p)
  }

  /** No process exits twice, and zombies in the table carry the code they exited with. */
  ghost predicate ExitsOnce(t: Table) {
    && (forall i, j :: 0 <= i < j < |t.exits| ==> t.exits[i].child.pid != t.exits[j].child.pid)
    && (forall k :: 0 <= k < |t.exits| && t.exits[k].child.pid in t.procs ==>
          t.procs[t.exits[k].child.pid].state == Zombie(t.exits[k].child.code))
    && (forall p :: p in t.procs && t.procs[p].state.Zombie? ==> HasExit(t.exits, p))
  }

  ghost predicate HasExit(exits: seq<Exit>, pid: nat) {
    exists k :: 0 <= k < |exits| && exits[k].child.pid == pid
  }

  ghost predicate Lists(t: Table) {
    forall p :: p in t.procs ==> ListOk(t, p) && Ledger(t, p)
  }

  ghost predicate Inv(t: Table) {
    Pids(t) && Covered(t) && Quiet(t) && CurrentOk(t) && ExitsOnce(t) && Lists(t)
  }

  // ---------------------------------------------------------------------------
  // Each entry point keeps it
  // ---------------------------------------------------------------------------

  lemma {:induction false} NothingToldYet(exits: seq<Exit>, reaps: seq<Reap>, p: nat)
    requires forall k :: 0 <= k < |exits| ==> exits[k].parent < p
    requires forall k :: 0 <= k < |reaps| ==> reaps[k].parent < p
    ensures ToldTo(exits, p) == [] && ReapsOf(reaps, p) == []
    decreases |exits| + |reaps|
  {
    if exits != [] {
      NothingToldYet(exits[..|exits| - 1], reaps, p);
    } else if reaps != [] {
      NothingToldYet(exits, reaps[..|reaps| - 1], p);
    }
  }

  /** Steps that leave zombies, lists and histories alone keep every list and every ledger. */
  lemma SameLists(t: Table, t': Table)
    requires Lists(t) && t'.exits == t.exits && t'.reaps == t.reaps && t'.procs.Keys == t.procs.Keys
    requires forall p :: p in t.procs ==>
               && t'.procs[p].exited == t.procs[p].exited && t'.procs[p].parent == t.procs[p].parent
               && (t.procs[p].state.Zombie? ==> t'.procs[p].state == t.procs[p].state)
    ensures Lists(t')
  {
    hide ToldTo, ReapsOf;
    forall p | p in t.procs ensures ListOk(t', p) && Ledger(t', p) {
      assert ListOk(t, p) && Ledger(t, p);
    }
  }

  lemma InsertLists(t: Table, parent: nat)
    requires Pids(t) && Lists(t)
    ensures Lists(Inserted(t, Proc(parent, Runnable, [], [])))
  {
    NothingToldYet(t.exits, t.reaps, t.nextPid);
    hide ToldTo, ReapsOf;
    var t' := Inserted(t, Proc(parent, Runnable, [], []));
    forall p | p in t'.procs ensures ListOk(t', p) && Ledger(t', p) {
      if p != t.nextPid {
        assert ListOk(t, p) && Ledger(t, p);
      }
    }
  }

  lemma InsertKeeps(t: Table, parent: nat)
    requires Inv(t) && parent < t.nextPid
    ensures Inv(Inserted(t, Proc(parent, Runnable, [], [])))
  {
    hide Lists;
    InsertLists(t, parent);
  }

  lemma KillKeeps(t: Table, pid: nat, sig: Signal)
    requires Inv(t)
    ensures Inv(Killed(t, pid, sig))
  {
    hide Lists, HasExit;
    SameLists(t, Killed(t, pid, sig));
  }

  lemma TakeSignalKeeps(t: Table)
    requires Inv(t) && t.current in t.procs && t.procs[t.current].signals != []
    ensures Inv(SignalTaken(t))
  {
    hide Lists;
    SameLists(t, SignalTaken(t));
  }

  /** What `wait_any` does when a child is waiting, process by process. */
  lemma ReapEffect(t: Table)
    requires Inv(t) && t.user && t.procs[t.current].exited != []
    ensures var t' := Waited(t).0;
            var c := t.procs[t.current].exited[0];
            && c.pid != t.current && c.pid in t.procs && t.procs[c.pid].state == Zombie(c.code)
            && t'.procs.Keys == t.procs.Keys - {c.pid}
            && (forall p :: p in t'.procs ==>
                  t'.procs[p] == if p == t.current then t.procs[p].(exited := t.procs[p].exited[1..]) else t.procs[p])
            && t' == t.(procs := t'.procs, reaps := t.reaps + [Reap(t.current, c)])
  {
    hide Covered, Quiet, ExitsOnce;
    assert ListOk(t, t.current);
  }

  lemma ReapListOk(t: Table, p: nat)
    requires Inv(t) && t.user && t.procs[t.current].exited != [] && p in Waited(t).0.procs
    ensures ListOk(Waited(t).0, p)
  {
    hide Waited, Covered, Quiet, ExitsOnce, Pids, Ledger;
    ReapEffect(t);
    assert ListOk(t, p) && ListOk(t, t.current);

  }

  lemma ReapLedger(t: Table, p: nat)
    requires Inv(t) && t.user && t.procs[t.current].exited != [] && p in Waited(t).0.procs
    ensures Ledger(Waited(t).0, p)
  {
    hide Waited, Covered, Quiet, ExitsOnce, Pids, ListOk, CurrentOk;
    ReapEffect(t);
    assert Ledger(t, p);
    var t' := Waited(t).0;
    assert t'.reaps[..|t.reaps|] == t.reaps;
    if p == t.current {
      var l := t.procs[p].exited;
      assert l == [l[0]] + l[1..];
      assert ReapsOf(t'.reaps, p) == ReapsOf(t.reaps, p) + [l[0]];
    }
  }

  lemma ReapLists(t: Table)
    requires Inv(t) && t.user && t.procs[t.current].exited != []
    ensures Lists(Waited(t).0)
  {
    hide Waited, ListOk, Ledger;
    forall p | p in Waited(t).0.procs ensures ListOk(Waited(t).0, p) && Ledger(Waited(t).0, p) {
      ReapListOk(t, p);
      ReapLedger(t, p);
    }
  }

  lemma WaitKeeps(t: Table)
    requires Inv(t) && t.user
    ensures Inv(Waited(t).0)
  {
    hide Lists;
    if t.procs[t.current].exited != [] {
      ReapEffect(t);
      ReapLists(t);
      hide Waited;
    } else {
      SameLists(t, Waited(t).0);
    }
  }

  /** The table between the two halves of `exit_current`: the dead process is still current. */
  ghost predicate AfterExit(t: Table) {
    && Pids(t) && Covered(t.(user := false)) && Quiet(t) && ExitsOnce(t) && Lists(t)
    && t.current in t.procs && t.procs[t.current].state.Zombie?
  }

  /** What `exit_current` does, process by process. */
  lemma ExitEffect(t: Table, code: int)
    requires Inv(t) && t.user
    ensures var t' := Exited(t, code);
            var par := t.procs[t.current].parent;
            && par != t.current
            && t'.procs.Keys == t.procs.Keys
            && (forall p :: p in t.procs ==>
                  && t'.procs[p].parent == t.procs[p].parent
                  && t'.procs[p].state == (if p == t.current then Zombie(code)
                                           else if p == par && t.procs[p].state.Sleeping? then Runnable
                                           else t.procs[p].state)
                  && t'.procs[p].exited == if p == par then t.procs[p].exited + [Child(t.current, code)]
                                           else t.procs[p].exited)
            && t'.exits == t.exits + [Exit(Child(t.current, code), par, par in t.procs)]
            && t'.queue == (if par in t.procs && t.procs[par].state.Sleeping? then t.queue + [par] else t.queue)
            && t' == t.(procs := t'.procs, exits := t'.exits, queue := t'.queue)
  {
  }

  lemma ExitListOk(t: Table, code: int, p: nat)
    requires Inv(t) && t.user && p in t.procs
    ensures p in Exited(t, code).procs && ListOk(Exited(t, code), p)
  {
    hide Exited, Covered, Quiet, ExitsOnce, Pids, Ledger;
    ExitEffect(t, code);
    assert ListOk(t, p);

  }

  lemma ExitLedger(t: Table, code: int, p: nat)
    requires Inv(t) && t.user && p in t.procs
    ensures p in Exited(t, code).procs && Ledger(Exited(t, code), p)
  {
    hide Exited, Covered, Quiet, ExitsOnce, Pids, ListOk;
    ExitEffect(t, code);
    assert Ledger(t, p);
    var t' := Exited(t, code);
    assert t'.exits[..|t.exits|] == t.exits;
    assert ToldTo(t'.exits, p) ==
           ToldTo(t.exits, p) + if p == t.procs[t.current].parent then [Child(t.current, code)] else [];
  }

  lemma ExitLists(t: Table, code: int)
    requires Inv(t) && t.user
    ensures Lists(Exited(t, code))
  {
    ExitEffect(t, code);
    hide Exited, ListOk, Ledger;
    forall p | p in t.procs ensures ListOk(Exited(t, code), p) && Ledger(Exited(t, code), p) {
      ExitListOk(t, code, p);
      ExitLedger(t, code, p);
    }
  }

  /** A live process has not exited before. */
  lemma LiveHasNoExit(t: Table)
    requires ExitsOnce(t) && t.current in t.procs && !t.procs[t.current].state.Zombie?
    ensures forall k :: 0 <= k < |t.exits| ==> t.exits[k].child.pid != t.current
  {
  }

  lemma HasExitSnoc(exits: seq<Exit>, e: Exit, pid: nat)
    requires HasExit(exits, pid) || e.child.pid == pid
    ensures HasExit(exits + [e], pid)
  {
    var all := exits + [e];
    if e.child.pid == pid {
      assert all[|exits|].child.pid == pid;
    } else {
      var k :| 0 <= k < |exits| && exits[k].child.pid == pid;
      assert all[k].child.pid == pid;
    }
  }

  lemma ExitOnce(t: Table, code: int)
    requires Inv(t) && t.user
    ensures ExitsOnce(Exited(t, code))
  {
    hide Exited, Lists, Covered, Quiet, Pids, HasExit;
    ExitEffect(t, code);
    LiveHasNoExit(t);
    var t' := Exited(t, code);
    var e := t'.exits[|t.exits|];
    forall p | p in t'.procs && t'.procs[p].state.Zombie? ensures HasExit(t'.exits, p) {
      HasExitSnoc(t.exits, e, p);
    }
  }

  lemma ExitKeeps(t: Table, code: int)
    requires Inv(t) && t.user
    ensures AfterExit(Exited(t, code))
  {
    hide Lists, Exited, ExitsOnce;
    ExitEffect(t, code);
    ExitOnce(t, code);
    ExitLists(t, code);
  }

  lemma {:induction false} ElectedKeepsOthers(procs: map<nat, Proc>, queue: seq<nat>, p: nat)
    requires p in queue && IsRunnable(procs, p)
    ensures var (next, rest) := Elected(procs, queue);
            next == Some(p) || p in rest
  {
    if !IsRunnable(procs, queue[0]) {
      ElectedKeepsOthers(procs, queue[1..], p);
    }
  }

  lemma ScheduleKeeps(t: Table)
    requires AfterExit(t) || (Inv(t) && !t.user)
    ensures Inv(Scheduled(t))
  {
    hide Elected, Lists;
    SameLists(t, Scheduled(t));
    var t' := Scheduled(t);
    forall p | IsRunnable(t.procs, p) ensures p in t'.queue || (t'.user && p == t'.current) {
      ElectedKeepsOthers(t.procs, t.queue, p);
    }
  }

  lemma RescheduleKeeps(t: Table)
    requires Inv(t) && t.user
    ensures Inv(Rescheduled(t))
  {
    hide Elected, Lists;
    SameLists(t, Rescheduled(t));
    var t' := Rescheduled(t);
    var queue1 := if t.current != 0 && IsRunnable(t.procs, t.current) then t.queue + [t.current] else t.queue;
    forall p | IsRunnable(t.procs, p) ensures p in t'.queue || (t'.user && p == t'.current) {
      ElectedKeepsOthers(t.procs, queue1, p);
    }
  }

  /**
   A tick that interrupts the kernel while `current` still names a dead process must not find a
   signal pending for it; every other step is harmless.
   */
  predicate Harmless(t: Table, step: Step) {
    step == DoTick(false) && !t.user ==> !Delivers(t)
  }

  lemma StepKeeps(t: Table, step: Step)
    requires Inv(t) && Harmless(t, step)
    ensures Inv(Apply(t, step))
  {
    if Enabled(t, step) {
      match step
      case DoSpawn => InsertKeeps(t, if t.user then t.current else 0);
      case DoFork => InsertKeeps(t, t.current);
      case DoExit(code) =>
        ExitKeeps(t, code);
        ScheduleKeeps(Exited(t, code));
      case DoWait => WaitKeeps(t);
      case DoKill(pid, sig) => KillKeeps(t, pid, sig);
      case DoTick(ring3) =>
        if Delivers(t) {
          TakeSignalKeeps(t);
          var code := ExitCode(t.procs[t.current].signals[0]);
          ExitKeeps(SignalTaken(t), code);
          ScheduleKeeps(Exited(SignalTaken(t), code));
        } else if ring3 {
          RescheduleKeeps(t);
        }
      case DoRun => ScheduleKeeps(t);
    }
  }

  // ---------------------------------------------------------------------------
  // Safety over whole runs
  // ---------------------------------------------------------------------------

  function After(steps: seq<Step>): Table {
    if steps == [] then BOOT else Apply(After(steps[..|steps| - 1]), steps[|steps| - 1])
  }

  ghost predicate HarmlessRun(steps: seq<Step>) {
    forall k :: 0 <= k < |steps| ==> Harmless(After(steps[..k]), steps[k])
  }

  /** Covered, Quiet, ExitsOnce, Lists and the rest hold in every reachable state. */
  lemma {:induction false} RunKeeps(steps: seq<Step>)
    requires HarmlessRun(steps)
    ensures Inv(After(steps))
  {
    if steps != [] {
      var init := steps[..|steps| - 1];
      assert forall k :: 0 <= k < |init| ==> init[..k] == steps[..k];
      RunKeeps(init);
      StepKeeps(After(init), steps[|steps| - 1]);
    }
  }

  /** The guard is exact: a kernel-mode delivery to a dead process breaks the invariant. */
  lemma HarmlessExactly(t: Table, step: Step)
    requires Inv(t)
    ensures Inv(Apply(t, step)) <==> Harmless(t, step)
  {
    if Harmless(t, step) {
      StepKeeps(t, step);
    } else {
      var t1 := Exited(SignalTaken(t), ExitCode(t.procs[t.current].signals[0]));
      assert HasExit(t.exits, t.current);
      var k :| 0 <= k < |t.exits| && t.exits[k].child.pid == t.current;
      assert t1.exits[k].child.pid == t1.exits[|t.exits|].child.pid;
      assert Apply(t, step).exits == t1.exits;
    }
  }

  /** The concrete run: a process exits, is signalled as a zombie, and a kernel tick kills it again. */
  lemma DeadProcessDiesAgain() returns (steps: seq<Step>)
    ensures HarmlessRun(steps)
    ensures 1 in After(steps).procs && After(steps).procs[1].state == Zombie(0)
    ensures 1 in After(steps + [DoTick(false)]).procs && After(steps + [DoTick(false)]).procs[1].state == Zombie(137)
  {
    FirstDeath();
    steps := [DoSpawn, DoRun, DoExit(0), DoKill(1, Kill)];
    assert steps[..3] == [DoSpawn, DoRun, DoExit(0)];
    assert (steps + [DoTick(false)])[..4] == steps;
    var dead := Proc(0, Zombie(0), [], []);
    assert After(steps).procs[1] == dead.(signals := [] + [Kill]);
    assert forall k :: 0 <= k < |steps| ==> !steps[k].DoTick?;
  }

  lemma FirstDeath()
    ensures After([DoSpawn, DoRun, DoExit(0)]) ==
            Table(map[1 := Proc(0, Zombie(0), [], [])], [], 1, 2, false, [Exit(Child(1, 0), 0, false)], [])
  {
    var s1, s2, s3 := [DoSpawn], [DoSpawn, DoRun], [DoSpawn, DoRun, DoExit(0)];
    var live := Proc(0, Runnable, [], []);
    assert s1[..0] == [] && s2[..1] == s1 && s3[..2] == s2;
    assert After(s1) == Table(map[1 := live], [1], 0, 2, false, [], []);
    assert After(s2) == Table(map[1 := live], [], 1, 2, true, [], []);
  }

  /** A zombie keeps its exit code until its parent's `wait_any` returns exactly that child. */
  lemma ZombieStays(t: Table, step: Step, c: nat)
    requires Inv(t) && Harmless(t, step) && c in t.procs && t.procs[c].state.Zombie?
    ensures var t' := Apply(t, step);
            || (c in t'.procs && t'.procs[c].state == t.procs[c].state)
            || (step.DoWait? && t.current == t.procs[c].parent
                && Waited(t).1 == Some(Child(c, t.procs[c].state.code)) && c !in t'.procs)
  {
    hide Elected, Ledger, ExitsOnce;
    if Enabled(t, step) && step.DoWait? {
      assert ListOk(t, t.current);
    }
  }

  lemma StepExtends(t: Table, step: Step, p: nat)
    requires Inv(t) && Harmless(t, step) && ReapsOf(t.reaps, p) <= ToldTo(t.exits, p)
    ensures ReapsOf(Apply(t, step).reaps, p) <= ToldTo(Apply(t, step).exits, p)
  {
    var t' := Apply(t, step);
    StepKeeps(t, step);
    if p in t'.procs {
      assert Ledger(t', p);
    } else {
      OthersUntouched(t, step, p);
    }
  }

  lemma ExitRecord(t: Table, code: int)
    requires t.current in t.procs
    ensures var t' := Exited(t, code);
            var par := t.procs[t.current].parent;
            && t'.exits == t.exits + [Exit(Child(t.current, code), par, par in t.procs)]
            && t'.procs.Keys == t.procs.Keys && t'.reaps == t.reaps
  {
  }

  lemma ToldSnoc(exits: seq<Exit>, e: Exit, p: nat)
    ensures ToldTo(exits + [e], p) == ToldTo(exits, p) + if e.told && e.parent == p then [e.child] else []
  {
    assert (exits + [e])[..|exits|] == exits;
  }

  lemma ReapsSnoc(reaps: seq<Reap>, r: Reap, p: nat)
    ensures ReapsOf(reaps + [r], p) == ReapsOf(reaps, p) + if r.parent == p then [r.child] else []
  {
    assert (reaps + [r])[..|reaps|] == reaps;
  }

  /** A process that is not in the table is told nothing and reaps nothing. */
  lemma OthersUntouched(t: Table, step: Step, p: nat)
    requires Inv(t) && p !in Apply(t, step).procs
    ensures ReapsOf(Apply(t, step).reaps, p) == ReapsOf(t.reaps, p)
    ensures ToldTo(Apply(t, step).exits, p) == ToldTo(t.exits, p)
  {
    hide Elected, Exited, ReapsOf, ToldTo, Lists;
    var t' := Apply(t, step);
    if Enabled(t, step) {
      match step
      case DoExit(code) =>
        ExitRecord(t, code);
        ToldSnoc(t.exits, Exited(t, code).exits[|t.exits|], p);
      case DoTick(ring3) =>
        if Delivers(t) {
          var t1 := SignalTaken(t);
          var code := ExitCode(t.procs[t.current].signals[0]);
          ExitRecord(t1, code);
          ToldSnoc(t.exits, Exited(t1, code).exits[|t.exits|], p);
        }
      case DoWait =>
        if t.procs[t.current].exited != [] {
          var c := t.procs[t.current].exited[0];
          ReapsSnoc(t.reaps, Reap(t.current, c), p);
          ReapedIsZombie(t);
        }
      case _ =>
    }
  }

  lemma ReapedIsZombie(t: Table)
    requires Inv(t) && t.user
    ensures t.procs[t.current].exited != [] ==>
              var c := t.procs[t.current].exited[0].pid; c != t.current && c in t.procs && t.procs[c].state.Zombie?
  {
    assert ListOk(t, t.current);
  }

  /**
   Exit and reap exactly once: in every run a parent reaps its children in the order they exited,
   with the codes they exited with, and no exit or reap is ever repeated.
   */
  lemma {:induction false} ReapedInOrder(steps: seq<Step>, p: nat)
    requires HarmlessRun(steps)
    ensures ReapsOf(After(steps).reaps, p) <= ToldTo(After(steps).exits, p)
    ensures var e := After(steps).exits; forall i, j :: 0 <= i < j < |e| ==> e[i].child.pid != e[j].child.pid
  {
    RunKeeps(steps);
    if steps != [] {
      var init := steps[..|steps| - 1];
      assert forall k :: 0 <= k < |init| ==> init[..k] == steps[..k];
      ReapedInOrder(init, p);
      RunKeeps(init);
      StepExtends(After(init), steps[|steps| - 1], p);
    }
  }

  // ---------------------------------------------------------------------------
  // Bounded waiting
  // ---------------------------------------------------------------------------

  /** Whether a step runs an election. */
  predicate Elects(t: Table, step: Step) {
    Enabled(t, step) &&
    match step
    case DoExit(_) => true
    case DoRun => true
    case DoTick(ring3) => Delivers(t) || ring3
    case _ => false
  }

  /** Runnable, queued, and not the process that is running now. */
  ghost predicate Waiting(t: Table, p: nat) {
    IsRunnable(t.procs, p) && p in t.queue && !(t.user && p == t.current)
  }

  ghost predicate Wins(t: Table, step: Step, p: nat) {
    Elects(t, step) && Apply(t, step).user && Apply(t, step).current == p
  }

  lemma {:induction false} ElectedPosition(procs: map<nat, Proc>, queue: seq<nat>, p: nat)
    requires p in queue && IsRunnable(procs, p)
    ensures var (next, rest) := Elected(procs, queue);
            next == Some(p) || (next.Some? && p in rest && FirstAt(rest, p) < FirstAt(queue, p))
  {
    if queue[0] != p && !IsRunnable(procs, queue[0]) {
      ElectedPosition(procs, queue[1..], p);
    }
  }

  lemma ExitPosition(t: Table, code: int, p: nat)
    requires Pids(t) && t.current in t.procs && t.current != p && IsRunnable(t.procs, p) && p in t.queue
    ensures var t' := Exited(t, code);
            IsRunnable(t'.procs, p) && p in t'.queue && FirstAt(t'.queue, p) == FirstAt(t.queue, p)
  {
    FirstAtSnoc(t.queue, p, t.procs[t.current].parent);
  }

  /** An election by `schedule_next` picks the process or brings it forward. */
  lemma ScheduledMoves(t: Table, p: nat)
    requires IsRunnable(t.procs, p) && p in t.queue
    ensures var t' := Scheduled(t);
            && t'.user && IsRunnable(t'.procs, p)
            && (t'.current == p || (p in t'.queue && FirstAt(t'.queue, p) < FirstAt(t.queue, p)))
  {
    hide Elected;
    ElectedPosition(t.procs, t.queue, p);
  }

  lemma ExitMoves(t: Table, code: int, p: nat)
    requires Pids(t) && t.current in t.procs && t.current != p && IsRunnable(t.procs, p) && p in t.queue
    ensures var t' := Scheduled(Exited(t, code));
            && t'.user && IsRunnable(t'.procs, p)
            && (t'.current == p || (p in t'.queue && FirstAt(t'.queue, p) < FirstAt(t.queue, p)))
  {
    hide Exited, Scheduled;
    ExitPosition(t, code, p);
    ScheduledMoves(Exited(t, code), p);
  }

  /** So does an election by `reschedule`, which first puts the current process at the back. */
  lemma RescheduledMoves(t: Table, p: nat)
    requires IsRunnable(t.procs, p) && p in t.queue
    ensures var t' := Rescheduled(t);
            && t'.user == t.user && IsRunnable(t'.procs, p)
            && (t'.current == p || (p in t'.queue && FirstAt(t'.queue, p) < FirstAt(t.queue, p)))
  {
    hide Elected;
    FirstAtSnoc(t.queue, p, t.current);
    var queue1 := if t.current != 0 && IsRunnable(t.procs, t.current) then t.queue + [t.current] else t.queue;
    ElectedPosition(t.procs, queue1, p);
  }

  lemma TickMoves(t: Table, ring3: bool, p: nat)
    requires Inv(t) && Harmless(t, DoTick(ring3)) && Waiting(t, p) && Elects(t, DoTick(ring3))
    ensures var t' := Ticked(t, ring3);
            && t'.user && IsRunnable(t'.procs, p)
            && (t'.current == p || (p in t'.queue && FirstAt(t'.queue, p) < FirstAt(t.queue, p)))
  {
    hide Exited, Scheduled, Rescheduled, Covered, Quiet, Lists, ExitsOnce;
    if Delivers(t) {
      var t1 := SignalTaken(t);
      ExitMoves(t1, ExitCode(t.procs[t.current].signals[0]), p);
    } else {
      RescheduledMoves(t, p);
    }
  }

  lemma ElectionMoves(t: Table, step: Step, p: nat)
    requires Inv(t) && Harmless(t, step) && Waiting(t, p) && Elects(t, step)
    ensures Wins(t, step, p) ||
            (Waiting(Apply(t, step), p) && FirstAt(Apply(t, step).queue, p) < FirstAt(t.queue, p))
  {
    hide Exited, Scheduled, Ticked, Covered, Quiet, Lists, ExitsOnce;
    match step
    case DoExit(code) => ExitMoves(t, code, p);
    case DoRun => ScheduledMoves(t, p);
    case DoTick(ring3) => TickMoves(t, ring3, p);
  }

  /** The process is as it was, and so is its place in the queue. */
  ghost predicate SamePlace(t: Table, t': Table, p: nat)
    requires p in t.queue
  {
    && IsRunnable(t'.procs, p) && p in t'.queue && FirstAt(t'.queue, p) == FirstAt(t.queue, p)
    && t'.user == t.user && t'.current == t.current
  }

  lemma InsertPlace(t: Table, q: Proc, p: nat)
    requires IsRunnable(t.procs, p) && p in t.queue && p != t.nextPid
    ensures SamePlace(t, Inserted(t, q), p)
  {
    FirstAtSnoc(t.queue, p, t.nextPid);
  }

  lemma KillPlace(t: Table, pid: nat, sig: Signal, p: nat)
    requires IsRunnable(t.procs, p) && p in t.queue
    ensures SamePlace(t, Killed(t, pid, sig), p)
  {
    FirstAtSnoc(t.queue, p, pid);
  }

  lemma WaitPlace(t: Table, p: nat)
    requires Inv(t) && t.user && IsRunnable(t.procs, p) && p in t.queue && p != t.current
    ensures SamePlace(t, Waited(t).0, p)
  {
    hide Covered, Quiet, Lists, ExitsOnce, Pids;
    ReapedIsZombie(t);
  }

  lemma OtherStepsKeepPlace(t: Table, step: Step, p: nat)
    requires Inv(t) && Waiting(t, p) && !Elects(t, step)
    ensures Waiting(Apply(t, step), p) && FirstAt(Apply(t, step).queue, p) == FirstAt(t.queue, p)
  {
    hide Inserted, Killed, Waited, Covered, Quiet, Lists, ExitsOnce, Exited, Scheduled, Rescheduled;
    match step
    case DoSpawn => InsertPlace(t, Proc(if t.user then t.current else 0, Runnable, [], []), p);
    case DoFork => InsertPlace(t, Proc(t.current, Runnable, [], []), p);
    case DoKill(pid, sig) => KillPlace(t, pid, sig, p);
    case DoWait => if t.user { WaitPlace(t, p); }
    case _ =>
  }

  function Elections(t: Table, steps: seq<Step>): nat
    decreases |steps|
  {
    if steps == [] then 0
    else (if Elects(t, steps[0]) then 1 else 0) + Elections(Apply(t, steps[0]), steps[1..])
  }

  ghost predicate WinsIn(t: Table, steps: seq<Step>, p: nat)
    decreases |steps|
  {
    steps != [] && (Wins(t, steps[0], p) || WinsIn(Apply(t, steps[0]), steps[1..], p))
  }

  ghost predicate HarmlessFrom(t: Table, steps: seq<Step>)
    decreases |steps|
  {
    steps == [] || (Harmless(t, steps[0]) && HarmlessFrom(Apply(t, steps[0]), steps[1..]))
  }

  /**
   A waiting process at position k is elected within k + 1 elections, whatever forks, kills,
   waits and exits happen meanwhile.
   */
  lemma {:induction false} BoundedWaiting(t: Table, steps: seq<Step>, p: nat)
    requires Inv(t) && HarmlessFrom(t, steps) && Waiting(t, p) && Elections(t, steps) > FirstAt(t.queue, p)
    ensures WinsIn(t, steps, p)
    decreases |steps|
  {
    var t' := Apply(t, steps[0]);
    StepKeeps(t, steps[0]);
    if Elects(t, steps[0]) {
      ElectionMoves(t, steps[0], p);
    } else {
      OtherStepsKeepPlace(t, steps[0], p);
    }
    if !Wins(t, steps[0], p) {
      BoundedWaiting(t', steps[1..], p);
    }
  }

  // ---------------------------------------------------------------------------
  // From the fork to the answer of the parent's wait
  // ---------------------------------------------------------------------------

  function Reached(t: Table, steps: seq<Step>): Table
    decreases |steps|
  {
    if steps == [] then t else Reached(Apply(t, steps[0]), steps[1..])
  }

  predicate WaitOf(t: Table, step: Step, p: nat) { step == DoWait && t.user && t.current == p }

  /** What the waits of a process answer, one by one. */
  function Answers(t: Table, steps: seq<Step>, p: nat): seq<Option<Child>>
    decreases |steps|
  {
    if steps == [] then []
    else (if WaitOf(t, steps[0], p) then [Waited(t).1] else []) + Answers(Apply(t, steps[0]), steps[1..], p)
  }

  predicate Names(answer: Option<Child>, c: nat) { answer.Some? && answer.value.pid == c }

  ghost predicate NeverNamed(t: Table, steps: seq<Step>, p: nat, c: nat) {
    forall i :: 0 <= i < |Answers(t, steps, p)| ==> !Names(Answers(t, steps, p)[i], c)
  }

  /** The code with which a step ends the running process. */
  function EndCode(t: Table, step: Step): Option<int> {
    if !t.user || t.current !in t.procs then None
    else match step
      case DoExit(code) => Some(code)
      case DoTick(_) => if t.procs[t.current].signals == [] then None else Some(ExitCode(t.procs[t.current].signals[0]))
      case _ => None
  }

  /** Given out, and not a live process any more. */
  ghost predicate Dead(t: Table, c: nat) {
    c < t.nextPid && (c in t.procs ==> t.procs[c].state.Zombie?)
  }

  ghost predicate ChildOf(t: Table, c: nat, p: nat) {
    c < t.nextPid && (c in t.procs ==> t.procs[c].parent == p)
  }

  lemma DeadStep(t: Table, step: Step, c: nat)
    requires Inv(t) && Harmless(t, step) && Dead(t, c)
    ensures Dead(Apply(t, step), c) && (c !in t.procs ==> c !in Apply(t, step).procs)
  {
    hide Elected, Lists, ExitsOnce, Covered;
    if WaitOf(t, step, t.current) {
      ReapedIsZombie(t);
    }
  }

  lemma {:induction false} DeadStays(t: Table, steps: seq<Step>, c: nat)
    requires Inv(t) && HarmlessFrom(t, steps) && Dead(t, c)
    ensures Dead(Reached(t, steps), c)
    decreases |steps|
  {
    hide Inv, Dead, Apply;
    if steps != [] {
      StepKeeps(t, steps[0]);
      DeadStep(t, steps[0], c);
      DeadStays(Apply(t, steps[0]), steps[1..], c);
    }
  }

  lemma ChildStep(t: Table, step: Step, c: nat, p: nat)
    requires ChildOf(t, c, p)
    ensures ChildOf(Apply(t, step), c, p)
  {
    hide Elected;
  }

  lemma {:induction false} ChildStays(t: Table, steps: seq<Step>, c: nat, p: nat)
    requires ChildOf(t, c, p)
    ensures ChildOf(Reached(t, steps), c, p)
    decreases |steps|
  {
    hide ChildOf, Apply;
    if steps != [] {
      ChildStep(t, steps[0], c, p);
      ChildStays(Apply(t, steps[0]), steps[1..], c, p);
    }
  }

  lemma {:induction false} RunKeepsFrom(t: Table, steps: seq<Step>)
    requires Inv(t) && HarmlessFrom(t, steps)
    ensures Inv(Reached(t, steps))
    decreases |steps|
  {
    hide Inv, Apply;
    if steps != [] {
      StepKeeps(t, steps[0]);
      RunKeepsFrom(Apply(t, steps[0]), steps[1..]);
    }
  }

  /** A wait names a zombie that is a child of the caller. */
  lemma NamedIs(t: Table, c: nat)
    requires Inv(t) && t.user && Names(Waited(t).1, c)
    ensures c in t.procs && t.procs[c].state.Zombie? && t.procs[c].parent == t.current
  {
    hide ExitsOnce, Covered, Quiet, Pids;
    assert ListOk(t, t.current);
  }

  lemma NeverNamedFirst(t: Table, steps: seq<Step>, q: nat, c: nat)
    requires steps != [] && NeverNamed(Apply(t, steps[0]), steps[1..], q, c)
    requires WaitOf(t, steps[0], q) ==> !Names(Waited(t).1, c)
    ensures NeverNamed(t, steps, q, c)
  {
    hide Apply, Names, Waited;
    var rest := Answers(Apply(t, steps[0]), steps[1..], q);
    forall i | 0 <= i < |Answers(t, steps, q)| ensures !Names(Answers(t, steps, q)[i], c) {
      if WaitOf(t, steps[0], q) {
        assert i > 0 ==> Answers(t, steps, q)[i] == rest[i - 1];
      }
    }
  }

  /** Nobody is told of a process that is alive at the end. */
  lemma {:induction false} AliveNeverNamed(t: Table, steps: seq<Step>, q: nat, c: nat)
    requires Inv(t) && HarmlessFrom(t, steps) && !Dead(Reached(t, steps), c)
    ensures NeverNamed(t, steps, q, c)
    decreases |steps|
  {
    hide Inv, Dead, Apply, Names, NeverNamed, Waited;
    if steps == [] {
      NoStepsNoNames(t, q, c);
    } else {
      StepKeeps(t, steps[0]);
      AliveNeverNamed(Apply(t, steps[0]), steps[1..], q, c);
      if WaitOf(t, steps[0], q) && Names(Waited(t).1, c) {
        NamedIs(t, c);
        ZombieIsDead(t, c);
        DeadStays(t, steps, c);
      }
      NeverNamedFirst(t, steps, q, c);
    }
  }

  lemma NoStepsNoNames(t: Table, q: nat, c: nat)
    ensures NeverNamed(t, [], q, c)
  {
  }

  lemma ZombieIsDead(t: Table, c: nat)
    requires Inv(t) && c in t.procs && t.procs[c].state.Zombie?
    ensures Dead(t, c)
  {
  }

  /** Nor is anybody but the parent, or after it was taken out of the table. */
  lemma {:induction false} OthersNeverNamed(t: Table, steps: seq<Step>, q: nat, c: nat, p: nat)
    requires Inv(t) && HarmlessFrom(t, steps) && ChildOf(t, c, p) && (q != p || (Dead(t, c) && c !in t.procs))
    ensures NeverNamed(t, steps, q, c)
    decreases |steps|
  {
    hide Inv, Dead, Apply, Names, ChildOf, NeverNamed, Waited;
    if steps == [] {
      NoStepsNoNames(t, q, c);
    } else {
      StepKeeps(t, steps[0]);
      ChildStep(t, steps[0], c, p);
      if q == p {
        DeadStep(t, steps[0], c);
      }
      OthersNeverNamed(Apply(t, steps[0]), steps[1..], q, c, p);
      if WaitOf(t, steps[0], q) && Names(Waited(t).1, c) {
        NamedIs(t, c);
        ParentOf(t, c, p);
      }
      NeverNamedFirst(t, steps, q, c);
    }
  }

  lemma ParentOf(t: Table, c: nat, p: nat)
    requires ChildOf(t, c, p) && c in t.procs
    ensures t.procs[c].parent == p
  {
  }

  /** The list of a process only grows, except by its own waits. */
  lemma ListStep(t: Table, step: Step, p: nat)
    requires Inv(t) && Harmless(t, step) && p in t.procs && !WaitOf(t, step, p)
    ensures p in Apply(t, step).procs ==> t.procs[p].exited <= Apply(t, step).procs[p].exited
    ensures p !in Apply(t, step).procs ==> Dead(Apply(t, step), p)
  {
    hide Elected, Lists, ExitsOnce, Covered, Quiet;
  }

  lemma {:induction false} GoneNeverWaits(t: Table, steps: seq<Step>, p: nat)
    requires Inv(t) && HarmlessFrom(t, steps) && Dead(t, p) && p !in t.procs
    ensures Answers(t, steps, p) == []
    decreases |steps|
  {
    hide Apply, Lists, ExitsOnce, Covered, Quiet, Pids;
    if steps != [] {
      StepKeeps(t, steps[0]);
      DeadStep(t, steps[0], p);
      GoneNeverWaits(Apply(t, steps[0]), steps[1..], p);
    }
  }

  /** The child stands in the parent's list, `d` places from the front. */
  ghost predicate Listed(t: Table, p: nat, x: Child, d: nat) {
    p in t.procs && d < |t.procs[p].exited| && t.procs[p].exited[d] == x
  }

  lemma OwnWait(t: Table, p: nat, x: Child, d: nat)
    requires Inv(t) && WaitOf(t, DoWait, p) && Listed(t, p, x, d)
    ensures d > 0 ==> Listed(Apply(t, DoWait), p, x, d - 1) && Waited(t).1.Some? && !Names(Waited(t).1, x.pid)
    ensures d == 0 ==> Waited(t).1 == Some(x) && Dead(Apply(t, DoWait), x.pid) && x.pid !in Apply(t, DoWait).procs
  {
    hide Covered, Quiet, ExitsOnce, Ledger;
    ReapEffect(t);
    assert ListOk(t, p);
  }

  /** The wait in its turn answers the child, and no other wait does. */
  ghost predicate OnlyAnswer(answers: seq<Option<Child>>, d: nat, x: Child) {
    forall i :: 0 <= i < |answers| ==> if i == d then answers[i] == Some(x) else !Names(answers[i], x.pid)
  }

  lemma {:induction false} ListedAnswered(t: Table, steps: seq<Step>, p: nat, x: Child, d: nat)
    requires Inv(t) && HarmlessFrom(t, steps) && Listed(t, p, x, d) && ChildOf(t, x.pid, p)
    ensures OnlyAnswer(Answers(t, steps, p), d, x)
    decreases |steps|
  {
    hide Inv, Apply, Names, ChildOf, Waited, Dead;
    if steps != [] {
      var t' := Apply(t, steps[0]);
      StepKeeps(t, steps[0]);
      ChildStep(t, steps[0], x.pid, p);
      if WaitOf(t, steps[0], p) {
        OwnWait(t, p, x, d);
        if d > 0 {
          ListedAnswered(t', steps[1..], p, x, d - 1);
        } else {
          OthersNeverNamed(t', steps[1..], p, x.pid, p);
        }
      } else {
        ListStep(t, steps[0], p);
        if p in t'.procs {
          ListedAnswered(t', steps[1..], p, x, d);
        } else {
          GoneNeverWaits(t', steps[1..], p);
        }
      }
    }
  }

  lemma BirthIs(t: Table, birth: Step)
    requires Inv(t) && t.user && (birth == DoFork || birth == DoSpawn)
    ensures ChildOf(Apply(t, birth), t.nextPid, t.current) && t.nextPid in Apply(t, birth).procs
  {
    hide Lists, ExitsOnce, Covered, Quiet;
  }

  lemma EndIs(t: Table, end: Step, p: nat)
    requires Inv(t) && EndCode(t, end).Some? && p in t.procs && ChildOf(t, t.current, p)
    ensures Harmless(t, end) && !Dead(t, t.current)
    ensures Listed(Apply(t, end), p, Child(t.current, EndCode(t, end).value), |t.procs[p].exited|)
  {
    hide Elected, Lists, ExitsOnce, Covered, Quiet;
    if end.DoTick? {
      var t1 := SignalTaken(t);
      TakeSignalKeeps(t);
      ExitEffect(t1, EndCode(t, end).value);
    } else {
      ExitEffect(t, end.code);
    }
  }

  /**
   In every run: a process forks (or spawns) a child, later that child ends while its parent is in
   the table, by a call of exit or by a signal. Then the parent's wait that comes after those for
   the children it was told of before answers this child with this code, and no other wait of any
   process, before or after, ever names it.
   */
  lemma ForkReaped(run: seq<Step>, birth: Step, life: seq<Step>, end: Step, more: seq<Step>, q: nat)
    requires HarmlessRun(run) && After(run).user && (birth == DoFork || birth == DoSpawn)
    requires var t := Apply(After(run), birth);
             var t' := Reached(t, life);
             && HarmlessFrom(t, life) && HarmlessFrom(Apply(t', end), more)
             && t'.current == After(run).nextPid && EndCode(t', end).Some? && After(run).current in t'.procs
    ensures var p, c, t := After(run).current, After(run).nextPid, Apply(After(run), birth);
            var t' := Reached(t, life);
            && OnlyAnswer(Answers(Apply(t', end), more, p), |t'.procs[p].exited|, Child(c, EndCode(t', end).value))
            && NeverNamed(t, life, q, c)
            && (q != p ==> NeverNamed(Apply(t', end), more, q, c))
  {
    hide Apply, Inv, Dead, ChildOf, Listed, EndCode, Answers, NeverNamed, OnlyAnswer, HarmlessRun;
    RunKeeps(run);
    var t0 := After(run);
    var p, c := t0.current, t0.nextPid;
    StepKeeps(t0, birth);
    BirthIs(t0, birth);
    var t := Apply(t0, birth);
    ChildStays(t, life, c, p);
    RunKeepsFrom(t, life);
    var t' := Reached(t, life);
    EndIs(t', end, p);
    AliveNeverNamed(t, life, q, c);
    StepKeeps(t', end);
    ChildStep(t', end, c, p);
    ListedAnswered(Apply(t', end), more, p, Child(c, EndCode(t', end).value), |t'.procs[p].exited|);
    if q != p {
      OthersNeverNamed(Apply(t', end), more, q, c, p);
    }
  }

  // ---------------------------------------------------------------------------
  // A killed process dies
  // ---------------------------------------------------------------------------

  /** Alive with these signals in front, or no longer alive. */
  ghost predicate Doomed(t: Table, p: nat, sigs: seq<Signal>) {
    Dead(t, p) || (p in t.procs && sigs <= t.procs[p].signals)
  }

  lemma DoomedStep(t: Table, step: Step, p: nat, sigs: seq<Signal>)
    requires Inv(t) && Harmless(t, step) && sigs != [] && Doomed(t, p, sigs)
    ensures Doomed(Apply(t, step), p, sigs)
  {
    hide Elected, Lists, ExitsOnce, Covered, Quiet;
    if Dead(t, p) {
      DeadStep(t, step, p);
    } else if WaitOf(t, step, t.current) {
      ReapedIsZombie(t);
    }
  }

  lemma {:induction false} DoomedStays(t: Table, steps: seq<Step>, p: nat, sigs: seq<Signal>)
    requires Inv(t) && HarmlessFrom(t, steps) && sigs != [] && Doomed(t, p, sigs)
    ensures Doomed(Reached(t, steps), p, sigs)
    decreases |steps|
  {
    hide Inv, Apply, Doomed;
    if steps != [] {
      StepKeeps(t, steps[0]);
      DoomedStep(t, steps[0], p, sigs);
      DoomedStays(Apply(t, steps[0]), steps[1..], p, sigs);
    }
  }

  /**
   A signal to a live process makes it runnable, and the first tick that finds it running ends it
   with 128 plus the number of its oldest pending signal, whatever happened in between.
   */
  lemma KilledDies(run: seq<Step>, p: nat, sig: Signal, steps: seq<Step>, ring3: bool)
    requires HarmlessRun(run) && p in After(run).procs && !After(run).procs[p].state.Zombie?
    requires var t := Apply(After(run), DoKill(p, sig));
             HarmlessFrom(t, steps) && Reached(t, steps).user && Reached(t, steps).current == p
    ensures var t := Apply(After(run), DoKill(p, sig)); IsRunnable(t.procs, p) && (p in t.queue || (t.user && t.current == p))
    ensures var t := Reached(Apply(After(run), DoKill(p, sig)), steps);
            var t' := Apply(t, DoTick(ring3));
            var code := match (After(run).procs[p].signals + [sig])[0]
              case Int => 130 case Ill => 132 case Bus => 135 case Kill => 137 case Segv => 139 case Term => 143;
            && p in t'.procs && t'.procs[p].state == Zombie(code)
            && |t'.exits| == |t.exits| + 1 && t'.exits[|t.exits|].child == Child(p, code)
  {
    hide Inv, HarmlessRun, Apply, Doomed;
    RunKeeps(run);
    var t0 := After(run);
    var sigs := t0.procs[p].signals + [sig];
    var t1 := Apply(t0, DoKill(p, sig));
    StepKeeps(t0, DoKill(p, sig));
    KillIs(t0, p, sig);
    DoomedStays(t1, steps, p, sigs);
    RunKeepsFrom(t1, steps);
    TickEnds(Reached(t1, steps), ring3, sigs);
  }

  lemma KillIs(t: Table, p: nat, sig: Signal)
    requires Inv(t) && p in t.procs && !t.procs[p].state.Zombie?
    ensures var t' := Apply(t, DoKill(p, sig));
            && Doomed(t', p, t.procs[p].signals + [sig])
            && IsRunnable(t'.procs, p) && (p in t'.queue || (t'.user && t'.current == p))
  {
    hide Lists, ExitsOnce, Quiet;
  }

  lemma TickEnds(t: Table, ring3: bool, sigs: seq<Signal>)
    requires Inv(t) && t.user && sigs != [] && Doomed(t, t.current, sigs)
    ensures var t' := Apply(t, DoTick(ring3));
            && t.current in t'.procs && t'.procs[t.current].state == Zombie(ExitCode(sigs[0]))
            && |t'.exits| == |t.exits| + 1 && t'.exits[|t.exits|].child == Child(t.current, ExitCode(sigs[0]))
  {
    hide Lists, ExitsOnce, Quiet, Elected, Covered, Exited;
    TakeSignalKeeps(t);
    ExitEffect(SignalTaken(t), ExitCode(sigs[0]));
  }

  // ---------------------------------------------------------------------------
  // The imperative form
  // ---------------------------------------------------------------------------

  class ProcessTable {
    var procs: map<nat, Proc>
    var runnable: seq<nat>
    var current: nat
    var nextPid: nat
    var user: bool
    ghost var exits: seq<Exit>
    ghost var reaps: seq<Reap>

    ghost function View(): Table
      reads this
    {
      Table(procs, runnable, current, nextPid, user, exits, reaps)
    }

    constructor ()
      ensures View() == BOOT
    {
      procs, runnable, current, nextPid, user := map[], [], 0, 1, false;
      exits, reaps := [], [];
    }

    method PickNext() returns (next: Option<nat>)
      modifies this`runnable
      ensures (next, runnable) == Elected(procs, old(runnable))
      ensures next.Some? ==> IsRunnable(procs, next.value)
    {
      next := None;
      while runnable != []
        invariant Elected(procs, runnable) == Elected(procs, old(runnable))
        decreases |runnable|
      {
        var pid := runnable[0];
        runnable := runnable[1..];
        if pid in procs && procs[pid].state.Runnable? {
          return Some(pid);
        }
      }
    }

    /** `insert`, with the pid that `alloc_pid` hands out. */
    method Insert(p: Proc) returns (pid: nat)
      modifies this
      ensures View() == Inserted(old(View()), p) && pid == old(nextPid)
    {
      pid := nextPid;
      nextPid := nextPid + 1;
      if p.state.Runnable? {
        runnable := runnable + [pid];
      }
      procs := procs[pid := p];
    }

    method Fork() returns (child: Option<nat>)
      modifies this
      ensures View() == Forked(old(View()))
      ensures child == if old(current in procs) then Some(old(nextPid)) else None
    {
      if current !in procs {
        return None;
      }
      var pid := Insert(Proc(current, Runnable, [], []));
      child := Some(pid);
    }

    /** The first half of `exit_current`, up to the call of `schedule_next`. */
    method ExitCurrent(code: int)
      requires current in procs
      modifies this
      ensures View() == Exited(old(View()), code)
    {
      var pid := current;
      var parent := procs[pid].parent;
      procs := procs[pid := procs[pid].(state := Zombie(code))];
      exits := exits + [Exit(Child(pid, code), parent, parent in procs)];
      var wake := false;
      if parent in procs {
        var par := procs[parent];
        par := par.(exited := par.exited + [Child(pid, code)]);
        if par.state.Sleeping? {
          par := par.(state := Runnable);
          wake := true;
        }
        procs := procs[parent := par];
      }
      if wake {
        runnable := runnable + [parent];
      }
    }

    method WaitAny() returns (r: Option<Child>)
      modifies this
      ensures (View(), r) == Waited(old(View()))
    {
      if current !in procs {
        return None;
      }
      var p := procs[current];
      if p.exited != [] {
        var c := p.exited[0];
        procs := procs[current := p.(exited := p.exited[1..])];
        procs := procs - {c.pid};
        reaps := reaps + [Reap(current, c)];
        return Some(c);
      }
      procs := procs[current := p.(state := Sleeping)];
      r := None;
    }

    method KillPid(pid: nat, sig: Signal) returns (known: bool)
      modifies this
      ensures View() == Killed(old(View()), pid, sig) && known == old(pid in procs)
    {
      known := pid in procs;
      if !known {
        return;
      }
      var p := procs[pid].(signals := procs[pid].signals + [sig]);
      if p.state.Sleeping? {
        procs := procs[pid := p.(state := Runnable)];
        runnable := runnable + [pid];
      } else {
        procs := procs[pid := p];
      }
    }

    method ScheduleNext()
      modifies this
      ensures View() == Scheduled(old(View()))
    {
      var next := PickNext();
      if next.None? {
        user := false;
      } else {
        current, user := next.value, true;
      }
    }

    method Reschedule()
      modifies this
      ensures View() == Rescheduled(old(View()))
    {
      if current != 0 && current in procs && procs[current].state.Runnable? {
        runnable := runnable + [current];
      }
      var next := PickNext();
      if next.None? || next.value == current {
        return;
      }
      current := next.value;
    }

    /** `on_timer`: `deliver_pending`, which does not return when a signal is taken, then `reschedule`. */
    method OnTimer(ring3: bool)
      modifies this
      ensures View() == Ticked(old(View()), ring3)
    {
      if current != 0 && current in procs && procs[current].signals != [] {
        var p := procs[current];
        procs := procs[current := p.(signals := p.signals[1..])];
        ExitCurrent(ExitCode(p.signals[0]));
        ScheduleNext();
        return;
      }
      if ring3 {
        Reschedule();
      }
    }
  }
}

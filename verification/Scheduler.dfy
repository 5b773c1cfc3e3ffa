/** sched.c and task.c: tasks, the lists they are on, and which of them runs. */
module Scheduler {
  import opened Options
  import opened RunQueue
  import opened Sequences

  // ----- The invariant -----

  /** A runnable task is on the running list, a zombie on the zombie list unless it is still executing, any other
      task on the suspended list, and an unused slot nowhere. */
  ghost predicate HomeOf(tasks: Tasks, running: seq<Slot>, suspended: seq<Slot>, zombieTasks: seq<Slot>, current: Slot, i: Slot) {
    && (i in running <==> tasks[i].pid != 0 && tasks[i].running)
    && (i in suspended <==> tasks[i].pid != 0 && !tasks[i].running && !tasks[i].zombie)
    && (i in zombieTasks <==> tasks[i].pid != 0 && tasks[i].zombie && i != current)
    && !(tasks[i].running && tasks[i].zombie)
  }

  ghost predicate Homes(tasks: Tasks, running: seq<Slot>, suspended: seq<Slot>, zombieTasks: seq<Slot>, current: Slot) {
    && Distinct(running) && Distinct(suspended) && Distinct(zombieTasks)
    && (forall i: Slot :: HomeOf(tasks, running, suspended, zombieTasks, current, i))
    && tasks[current].pid != 0
  }

  /** Process numbers are given out once, and a reclaimed one has no task any more. */
  ghost predicate Numbered(tasks: Tasks, nextPid: nat, reclaimed: seq<nat>) {
    && 0 < nextPid
    && (forall i: Slot :: tasks[i].pid < nextPid)
    && (forall i: Slot, j: Slot :: tasks[i].pid != 0 && tasks[i].pid == tasks[j].pid ==> i == j)
    && (forall m, n :: 0 <= m < n < |reclaimed| ==> reclaimed[m] != reclaimed[n])
    && (forall n :: 0 <= n < |reclaimed| ==> 0 < reclaimed[n] < nextPid && forall i: Slot :: tasks[i].pid != reclaimed[n])
  }

  ghost predicate IsZombie(tasks: Tasks, p: nat) {
    p != 0 && exists i: Slot :: tasks[i].pid == p && tasks[i].zombie
  }

  /** The killed processes are the reclaimed ones and the zombies. */
  ghost predicate Accounted(tasks: Tasks, killed: set<nat>, reclaimed: seq<nat>) {
    forall p: nat :: p in killed <==> p in reclaimed || IsZombie(tasks, p)
  }

  /** The run queue in order, the current task left out, whose time runs down where it stands. */
  ghost predicate InQueueOrder(tasks: Tasks, running: seq<Slot>, current: Slot) {
    ByPriority(tasks, running) && OrderedBut(tasks, running, current)
  }

  ghost function Used(tasks: Tasks): set<Slot> {
    set i: Slot | i < MAX_TASKS && tasks[i].pid != 0
  }

  /** No runnable task has a higher priority than the current one. */
  ghost predicate TopPriority(tasks: Tasks, running: seq<Slot>, current: Slot) {
    forall i :: i in running ==> tasks[i].pri <= tasks[current].pri
  }

  // ----- Lemmas about single changes -----

  lemma SameOrder(t0: Tasks, t1: Tasks, s: seq<Slot>, skip: Slot)
    requires InQueueOrder(t0, s, skip)
    requires forall i :: i in s ==> t1[i].pri == t0[i].pri && (i == skip || t1[i].timeLeft == t0[i].timeLeft)
    ensures InQueueOrder(t1, s, skip)
  {
  }

  lemma FewerInOrder(tasks: Tasks, s: seq<Slot>, skip: Slot, x: Slot)
    requires Distinct(s) && InQueueOrder(tasks, s, skip)
    ensures InQueueOrder(tasks, Without(s, x), skip)
  {
    hide InOrder, Without;
    var k := WithoutSplit(s, x);
    var r := Without(s, x);
    forall m, n | 0 <= m < n < |r|
      ensures tasks[r[m]].pri >= tasks[r[n]].pri
      ensures r[m] != skip && r[n] != skip ==> InOrder(tasks[r[m]], tasks[r[n]])
    {
      var i, j := if x in s && k <= m then m + 1 else m, if x in s && k <= n then n + 1 else n;
      assert r[m] == s[i] && r[n] == s[j] && i < j;
    }
  }

  /** A task is put to sleep. */
  lemma HomesSuspended(tasks: Tasks, running: seq<Slot>, suspended: seq<Slot>, zombieTasks: seq<Slot>, current: Slot, t: Slot)
    requires Homes(tasks, running, suspended, zombieTasks, current) && t in running
    ensures Homes(tasks[t := tasks[t].(running := false)], Without(running, t), suspended + [t], zombieTasks, current)
  {
    hide Without;
    assert HomeOf(tasks, running, suspended, zombieTasks, current, t);
    WithoutFacts(running, t);
    var tasks' := tasks[t := tasks[t].(running := false)];
    forall i: Slot
      ensures HomeOf(tasks', Without(running, t), suspended + [t], zombieTasks, current, i)
    {
      assert HomeOf(tasks, running, suspended, zombieTasks, current, i);
    }
  }

  /** A sleeping task is queued. */
  lemma HomesWoken(tasks: Tasks, running: seq<Slot>, suspended: seq<Slot>, zombieTasks: seq<Slot>, current: Slot, t: Slot)
    requires Homes(tasks, running, suspended, zombieTasks, current) && t in suspended
    ensures var tasks' := tasks[t := tasks[t].(running := true)];
            Homes(tasks', Enqueued(tasks', running, t), Without(suspended, t), zombieTasks, current)
  {
    hide Without, Enqueued;
    var tasks' := tasks[t := tasks[t].(running := true)];
    assert HomeOf(tasks, running, suspended, zombieTasks, current, t);
    WithoutFacts(suspended, t);
    EnqueuedFacts(tasks', running, t);
    forall i: Slot
      ensures HomeOf(tasks', Enqueued(tasks', running, t), Without(suspended, t), zombieTasks, current, i)
    {
      assert HomeOf(tasks, running, suspended, zombieTasks, current, i);
    }
  }

  /** The current task is taken out of the queue and queued again. */
  lemma HomesRequeued(tasks: Tasks, running: seq<Slot>, suspended: seq<Slot>, zombieTasks: seq<Slot>, current: Slot)
    requires Homes(tasks, running, suspended, zombieTasks, current) && current in running
    requires InQueueOrder(tasks, running, current)
    ensures var r := Enqueued(tasks, Without(running, current), current);
            && Homes(tasks, r, suspended, zombieTasks, current)
            && Ordered(tasks, r) && (forall i: Slot :: i in r <==> i in running) && r != []
  {
    hide Without, Enqueued, InOrder;
    var w := Without(running, current);
    WithoutFacts(running, current);
    FewerInOrder(tasks, running, current, current);
    EnqueuedFacts(tasks, w, current);
    assert Ordered(tasks, w);
    WholeOrder(tasks, w, current);
    var r := Enqueued(tasks, w, current);
    assert current in r;
    forall i: Slot
      ensures HomeOf(tasks, r, suspended, zombieTasks, current, i)
    {
      assert HomeOf(tasks, running, suspended, zombieTasks, current, i);
    }
  }

  /** Another task becomes current; the one before it, if a zombie, joins the list of zombies. */
  lemma HomesSwitched(tasks: Tasks, running: seq<Slot>, suspended: seq<Slot>, zombieTasks: seq<Slot>, current: Slot, next: Slot)
    requires Homes(tasks, running, suspended, zombieTasks, current) && next in running && next != current
    ensures Homes(Refreshed(tasks, next), running, suspended, if tasks[current].zombie then zombieTasks + [current] else zombieTasks, next)
  {
    var tasks' := Refreshed(tasks, next);
    var zs := if tasks[current].zombie then zombieTasks + [current] else zombieTasks;
    assert HomeOf(tasks, running, suspended, zombieTasks, current, current);
    forall i: Slot
      ensures HomeOf(tasks', running, suspended, zs, next, i)
    {
      assert HomeOf(tasks, running, suspended, zombieTasks, current, i);
      assert HomeOf(tasks, running, suspended, zombieTasks, current, next);
    }
    assert HomeOf(tasks', running, suspended, zs, next, next);
  }

  lemma HomesRefreshed(tasks: Tasks, running: seq<Slot>, suspended: seq<Slot>, zombieTasks: seq<Slot>, current: Slot, t1: Tasks)
    requires Homes(tasks, running, suspended, zombieTasks, current)
    requires forall i: Slot :: t1[i].pid == tasks[i].pid && t1[i].running == tasks[i].running && t1[i].zombie == tasks[i].zombie
    ensures Homes(t1, running, suspended, zombieTasks, current)
  {
    forall i: Slot
      ensures HomeOf(t1, running, suspended, zombieTasks, current, i)
    {
      assert HomeOf(tasks, running, suspended, zombieTasks, current, i);
    }
  }

  /** The first zombie is gone from its list and from the task array. */
  lemma HomesReclaimed(tasks: Tasks, running: seq<Slot>, suspended: seq<Slot>, zombieTasks: seq<Slot>, current: Slot)
    requires Homes(tasks, running, suspended, zombieTasks, current) && zombieTasks != []
    ensures var z := zombieTasks[0]; z != current && Homes(tasks[z := tasks[z].(pid := 0)], running, suspended, zombieTasks[1..], current)
  {
    var z := zombieTasks[0];
    var tasks' := tasks[z := tasks[z].(pid := 0)];
    assert HomeOf(tasks, running, suspended, zombieTasks, current, z);
    forall i: Slot
      ensures HomeOf(tasks', running, suspended, zombieTasks[1..], current, i)
    {
      assert HomeOf(tasks, running, suspended, zombieTasks, current, i);
    }
  }

  /** A task dies: it leaves the list it is on, and its slot is free if it is not the current one. */
  lemma HomesKilled(tasks: Tasks, running: seq<Slot>, suspended: seq<Slot>, zombieTasks: seq<Slot>, current: Slot, t: Slot)
    requires Homes(tasks, running, suspended, zombieTasks, current) && tasks[t].pid != 0 && !tasks[t].zombie
    ensures t !in zombieTasks
    ensures var dead := tasks[t].(zombie := true, running := false);
            Homes(tasks[t := if t == current then dead else dead.(pid := 0)], Without(running, t), Without(suspended, t), zombieTasks, current)
  {
    hide Without;
    var dead := tasks[t].(zombie := true, running := false);
    var tasks' := tasks[t := if t == current then dead else dead.(pid := 0)];
    WithoutFacts(running, t);
    WithoutFacts(suspended, t);
    assert HomeOf(tasks, running, suspended, zombieTasks, current, t);
    forall i: Slot
      ensures HomeOf(tasks', Without(running, t), Without(suspended, t), zombieTasks, current, i)
    {
      assert HomeOf(tasks, running, suspended, zombieTasks, current, i);
    }
  }

  /** A new task in an unused slot. */
  lemma HomesAdded(tasks: Tasks, running: seq<Slot>, suspended: seq<Slot>, zombieTasks: seq<Slot>, current: Slot, t: Slot, new': Task)
    requires Homes(tasks, running, suspended, zombieTasks, current) && tasks[t].pid == 0 && new'.pid != 0 && !new'.zombie
    ensures t !in running
    ensures var tasks' := tasks[t := new'];
            Homes(tasks', if new'.running then Enqueued(tasks', running, t) else running,
                  if new'.running then suspended else suspended + [t], zombieTasks, current)
  {
    hide Enqueued;
    var tasks' := tasks[t := new'];
    assert HomeOf(tasks, running, suspended, zombieTasks, current, t);
    EnqueuedFacts(tasks', running, t);
    var running' := if new'.running then Enqueued(tasks', running, t) else running;
    var suspended' := if new'.running then suspended else suspended + [t];
    forall i: Slot
      ensures HomeOf(tasks', running', suspended', zombieTasks, current, i)
    {
      assert HomeOf(tasks, running, suspended, zombieTasks, current, i);
    }
  }

  // ----- Process numbers -----

  lemma NumberedReclaimed(tasks: Tasks, nextPid: nat, reclaimed: seq<nat>, killed: set<nat>, t: Slot, dead: Task)
    requires Numbered(tasks, nextPid, reclaimed) && Accounted(tasks, killed, reclaimed) && tasks[t].pid != 0 && dead.pid == 0
    ensures Numbered(tasks[t := dead], nextPid, reclaimed + [tasks[t].pid])
    ensures Accounted(tasks[t := dead], killed + {tasks[t].pid}, reclaimed + [tasks[t].pid])
    ensures |Used(tasks[t := dead])| == |Used(tasks)| - 1
  {
    var tasks' := tasks[t := dead];
    forall p: nat
      ensures p in killed + {tasks[t].pid} <==> p in reclaimed + [tasks[t].pid] || IsZombie(tasks', p)
    {
      if IsZombie(tasks, p) {
        var i: Slot :| tasks[i].pid == p && tasks[i].zombie;
        assert tasks'[i].pid == if i == t then 0 else p;
      }
      if IsZombie(tasks', p) {
        var i: Slot :| tasks'[i].pid == p && tasks'[i].zombie;
        assert i != t && tasks[i].pid == p && tasks[i].zombie;
      }
    }
    assert Used(tasks) == Used(tasks') + {t};
  }

  lemma NumberedSame(t0: Tasks, t1: Tasks, nextPid: nat, reclaimed: seq<nat>, killed: set<nat>)
    requires Numbered(t0, nextPid, reclaimed) && Accounted(t0, killed, reclaimed)
    requires forall i: Slot :: t1[i].pid == t0[i].pid && t1[i].zombie == t0[i].zombie
    ensures Numbered(t1, nextPid, reclaimed) && Accounted(t1, killed, reclaimed) && Used(t1) == Used(t0)
  {
    forall p: nat
      ensures IsZombie(t1, p) <==> IsZombie(t0, p)
    {
    }
  }

  lemma NumberedKilled(tasks: Tasks, nextPid: nat, reclaimed: seq<nat>, killed: set<nat>, t: Slot, dead: Task)
    requires Numbered(tasks, nextPid, reclaimed) && Accounted(tasks, killed, reclaimed)
    requires tasks[t].pid != 0 && dead.pid == tasks[t].pid && dead.zombie
    ensures Numbered(tasks[t := dead], nextPid, reclaimed) && Accounted(tasks[t := dead], killed + {dead.pid}, reclaimed)
    ensures Used(tasks[t := dead]) == Used(tasks)
  {
    var tasks' := tasks[t := dead];
    forall p: nat
      ensures IsZombie(tasks', p) <==> IsZombie(tasks, p) || p == dead.pid
    {
      if IsZombie(tasks, p) {
        var i: Slot :| tasks[i].pid == p && tasks[i].zombie;
        assert tasks'[i].pid == p && tasks'[i].zombie;
      }
      if p == dead.pid {
        assert tasks'[t].pid == p && tasks'[t].zombie;
      }
    }
  }

  lemma NumberedAdded(tasks: Tasks, nextPid: nat, reclaimed: seq<nat>, killed: set<nat>, t: Slot, new': Task)
    requires Numbered(tasks, nextPid, reclaimed) && Accounted(tasks, killed, reclaimed)
    requires tasks[t].pid == 0 && new'.pid == nextPid && !new'.zombie
    ensures Numbered(tasks[t := new'], nextPid + 1, reclaimed) && Accounted(tasks[t := new'], killed, reclaimed)
    ensures |Used(tasks[t := new'])| == |Used(tasks)| + 1
  {
    var tasks' := tasks[t := new'];
    forall p: nat
      ensures IsZombie(tasks', p) <==> IsZombie(tasks, p)
    {
      if IsZombie(tasks, p) {
        var i: Slot :| tasks[i].pid == p && tasks[i].zombie;
        assert tasks'[i].pid == p && tasks'[i].zombie;
      }
    }
    assert Used(tasks') == Used(tasks) + {t};
  }

  // ----- Effects of the scheduler as functions -----

  /** The slots of the tasks in `zs` are free. */
  function Reaped(tasks: Tasks, zs: seq<Slot>): Tasks
    decreases |zs|
  {
    if zs == [] then tasks else Reaped(tasks[zs[0] := tasks[zs[0]].(pid := 0)], zs[1..])
  }

  lemma {:induction false} ReapedAt(tasks: Tasks, zs: seq<Slot>, i: Slot)
    ensures Reaped(tasks, zs)[i] == if i in zs then tasks[i].(pid := 0) else tasks[i]
    decreases |zs|
  {
    if zs != [] { ReapedAt(tasks[zs[0] := tasks[zs[0]].(pid := 0)], zs[1..], i); }
  }

  function Pids(tasks: Tasks, zs: seq<Slot>): seq<nat> {
    if zs == [] then [] else [tasks[zs[0]].pid] + Pids(tasks, zs[1..])
  }

  lemma {:induction false} PidsSame(t0: Tasks, t1: Tasks, zs: seq<Slot>)
    requires forall i :: i in zs ==> t1[i].pid == t0[i].pid
    ensures Pids(t1, zs) == Pids(t0, zs)
  {
    if zs != [] { PidsSame(t0, t1, zs[1..]); }
  }

  /** `forbid` holds for a task only as long as it is runnable. */
  predicate Forbidden(tasks: Tasks, current: Slot) {
    tasks[current].forbidCount > 0 && tasks[current].running
  }

  /** The run queue once the current task is queued again (sched.c:218-224). */
  function Queue(tasks: Tasks, running: seq<Slot>, current: Slot): seq<Slot> {
    if tasks[current].running then Enqueued(tasks, Without(running, current), current) else running
  }

  ghost predicate Quanta(tasks: Tasks) {
    forall i: Slot :: tasks[i].pid != 0 ==> tasks[i].quantum > 0
  }

  lemma OneReaped(tasks: Tasks, running: seq<Slot>, suspended: seq<Slot>, zs: seq<Slot>, current: Slot,
                  nextPid: nat, reclaimed: seq<nat>, killed: set<nat>)
    requires Homes(tasks, running, suspended, zs, current) && InQueueOrder(tasks, running, current) && Quanta(tasks)
    requires Numbered(tasks, nextPid, reclaimed) && Accounted(tasks, killed, reclaimed) && zs != []
    ensures var z := zs[0];
            var t1 := tasks[z := tasks[z].(pid := 0)];
            && Homes(t1, running, suspended, zs[1..], current) && InQueueOrder(t1, running, current) && Quanta(t1)
            && Numbered(t1, nextPid, reclaimed + [tasks[z].pid]) && Accounted(t1, killed, reclaimed + [tasks[z].pid])
            && |Used(t1)| == |Used(tasks)| - 1
            && Pids(t1, zs[1..]) == Pids(tasks, zs[1..])
            && tasks[z].pid != 0 && tasks[z].zombie && z != current && z !in running && z !in suspended && z !in zs[1..]
  {
    hide InQueueOrder, Numbered, Used, Reaped;
    var z := zs[0];
    var t1 := tasks[z := tasks[z].(pid := 0)];
    assert HomeOf(tasks, running, suspended, zs, current, z);
    HomesReclaimed(tasks, running, suspended, zs, current);
    SameOrder(tasks, t1, running, current);
    NumberedReclaimed(tasks, nextPid, reclaimed, killed, z, tasks[z].(pid := 0));
    assert IsZombie(tasks, tasks[z].pid);
    assert killed + {tasks[z].pid} == killed;
    PidsSame(tasks, t1, zs[1..]);
  }

  lemma CurrentHome(tasks: Tasks, running: seq<Slot>, suspended: seq<Slot>, zs: seq<Slot>, current: Slot)
    requires Homes(tasks, running, suspended, zs, current)
    ensures current in running <==> tasks[current].running
    ensures tasks[current].pid != 0
  {
    assert HomeOf(tasks, running, suspended, zs, current, current);
  }

  lemma OrderedWithout(tasks: Tasks, running: seq<Slot>, current: Slot)
    requires InQueueOrder(tasks, running, current) && current !in running
    ensures Ordered(tasks, running)
  {
  }

  lemma Switched(tasks: Tasks, running: seq<Slot>, suspended: seq<Slot>, current: Slot,
                 nextPid: nat, reclaimed: seq<nat>, killed: set<nat>)
    requires Homes(tasks, running, suspended, [], current) && Ordered(tasks, running) && Quanta(tasks) && running != []
    requires Numbered(tasks, nextPid, reclaimed) && Accounted(tasks, killed, reclaimed)
    ensures var next := running[0];
            var t1 := Refreshed(tasks, next);
            && Homes(t1, running, suspended, if current != next && tasks[current].zombie then [current] else [], next)
            && InQueueOrder(t1, running, next) && TopPriority(t1, running, next) && t1[next].timeLeft > 0 && Quanta(t1)
            && Numbered(t1, nextPid, reclaimed) && Accounted(t1, killed, reclaimed) && Used(t1) == Used(tasks)
            && (current == next ==> !tasks[current].zombie)
  {
    hide Numbered, Accounted, Used;
    var next := running[0];
    var t1 := Refreshed(tasks, next);
    assert next in running;
    assert HomeOf(tasks, running, suspended, [], current, next);
    if current == next {
      HomesRefreshed(tasks, running, suspended, [], current, t1);
    } else {
      HomesSwitched(tasks, running, suspended, [], current, next);
      assert [] + [current] == [current];
    }
    OrderedIsByPriority(tasks, running, next);
    SameOrder(tasks, t1, running, next);
    NumberedSame(tasks, t1, nextPid, reclaimed, killed);
    TopIsFirst(t1, running);
  }

  lemma TopIsFirst(tasks: Tasks, running: seq<Slot>)
    requires running != [] && ByPriority(tasks, running)
    ensures TopPriority(tasks, running, running[0])
  {
  }

  lemma SlotHome(tasks: Tasks, running: seq<Slot>, suspended: seq<Slot>, zs: seq<Slot>, current: Slot, t: Slot)
    requires Homes(tasks, running, suspended, zs, current)
    ensures HomeOf(tasks, running, suspended, zs, current, t)
    ensures Distinct(running) && Distinct(suspended) && Distinct(zs)
  {
  }

  /** A task that `wake_task` makes runnable. */
  predicate Sleeping(t: Task) {
    !t.running && !t.frozen && !t.zombie
  }

  /** A task of higher priority is woken, outside interrupts, while the current task forbids preemption: nothing
      records that it should run. */
  predicate LostWakeup(tasks: Tasks, current: Slot, t: Slot, intrNestCount: int, needResched: bool) {
    && Sleeping(tasks[t]) && tasks[t].pri > tasks[current].pri && intrNestCount == 0 && Forbidden(tasks, current) && !needResched
  }

  /** The same for a new task. */
  predicate Overlooked(t: Task, tasks: Tasks, current: Slot, intrNestCount: int, needResched: bool) {
    t.running && t.pri > tasks[current].pri && intrNestCount == 0 && Forbidden(tasks, current) && !needResched
  }

  lemma Woken(tasks: Tasks, running: seq<Slot>, suspended: seq<Slot>, zs: seq<Slot>, current: Slot,
              nextPid: nat, reclaimed: seq<nat>, killed: set<nat>, t: Slot)
    requires Homes(tasks, running, suspended, zs, current) && InQueueOrder(tasks, running, current)
    requires Numbered(tasks, nextPid, reclaimed) && Accounted(tasks, killed, reclaimed) && Quanta(tasks)
    requires t in suspended
    ensures t !in zs
    ensures var t1 := tasks[t := tasks[t].(running := true)];
            var r1 := Enqueued(t1, running, t);
            && Homes(t1, r1, Without(suspended, t), zs, current) && InQueueOrder(t1, r1, current) && Quanta(t1)
            && Numbered(t1, nextPid, reclaimed) && Accounted(t1, killed, reclaimed) && Used(t1) == Used(tasks)
            && forall i: Slot :: i in r1 <==> i in running || i == t
  {
    hide Numbered, Accounted, Used, Enqueued, Without;
    var t1 := tasks[t := tasks[t].(running := true)];
    assert HomeOf(tasks, running, suspended, zs, current, t);
    HomesWoken(tasks, running, suspended, zs, current, t);
    SameOrder(tasks, t1, running, current);
    EnqueuedKeepsOrder(t1, running, t, current);
    EnqueuedKeepsPriority(t1, running, t);
    NumberedSame(tasks, t1, nextPid, reclaimed, killed);
    EnqueuedFacts(t1, running, t);
  }

  lemma CurrentNotReaped(tasks: Tasks, running: seq<Slot>, suspended: seq<Slot>, zs: seq<Slot>, current: Slot)
    requires Homes(tasks, running, suspended, zs, current)
    ensures current !in zs
  {
    assert HomeOf(tasks, running, suspended, zs, current, current);
  }

  lemma ForbidSurvivesReaping(tasks: Tasks, running: seq<Slot>, suspended: seq<Slot>, zs: seq<Slot>, current: Slot)
    requires Homes(tasks, running, suspended, zs, current)
    ensures Forbidden(Reaped(tasks, zs), current) == Forbidden(tasks, current)
  {
    ReapedAt(tasks, zs, current);
  }

  /** Requeueing the current task loses nobody. */
  lemma QueueKeeps(tasks: Tasks, running: seq<Slot>, suspended: seq<Slot>, zs: seq<Slot>, current: Slot, t: Slot)
    requires Homes(tasks, running, suspended, zs, current) && t in running
    ensures t in Queue(Reaped(tasks, zs), running, current)
  {
    hide Without, Enqueued;
    ReapedAt(tasks, zs, current);
    assert HomeOf(tasks, running, suspended, zs, current, current);
    WithoutFacts(running, current);
    EnqueuedFacts(Reaped(tasks, zs), Without(running, current), current);
  }

  lemma WithoutCurrent(tasks: Tasks, running: seq<Slot>, suspended: seq<Slot>, zs: seq<Slot>, current: Slot)
    requires Homes(tasks, running, suspended, zs, current)
    ensures current !in Without(running, current) && current !in zs
  {
    WithoutFacts(running, current);
    assert HomeOf(tasks, running, suspended, zs, current, current);
  }

  /** A task's own process number stays until its slot is reclaimed. */
  lemma NowCurrent(tasks: Tasks, running: seq<Slot>, suspended: seq<Slot>, zs: seq<Slot>, current: Slot)
    requires Homes(tasks, running, suspended, zs, current)
    ensures current !in zs && (current in running <==> tasks[current].running)
  {
    assert HomeOf(tasks, running, suspended, zs, current, current);
  }

  lemma ZombieOnList(tasks: Tasks, running: seq<Slot>, suspended: seq<Slot>, zs: seq<Slot>, current: Slot, t: Slot)
    requires Homes(tasks, running, suspended, zs, current) && tasks[t].zombie && tasks[t].pid != 0 && t != current
    ensures t in zs && |Without(zs, t)| == |zs| - 1
  {
    assert HomeOf(tasks, running, suspended, zs, current, t);
    var k := WithoutSplit(zs, t);
  }

  lemma Killed(tasks: Tasks, running: seq<Slot>, suspended: seq<Slot>, zs: seq<Slot>, current: Slot,
               nextPid: nat, reclaimed: seq<nat>, killed: set<nat>, t: Slot)
    requires Homes(tasks, running, suspended, zs, current) && InQueueOrder(tasks, running, current) && Quanta(tasks)
    requires Numbered(tasks, nextPid, reclaimed) && Accounted(tasks, killed, reclaimed) && tasks[t].pid != 0 && !tasks[t].zombie
    ensures t !in zs && Without(zs, t) == zs
    ensures var dead := tasks[t].(zombie := true, running := false);
            var t1 := tasks[t := dead];
            var t2 := t1[t := dead.(pid := 0)];
            && InQueueOrder(t1, Without(running, t), current) && Quanta(t1) && InQueueOrder(t2, Without(running, t), current) && Quanta(t2)
            && Homes(if t == current then t1 else t2, Without(running, t), Without(suspended, t), zs, current)
            && Numbered(t1, nextPid, reclaimed) && Accounted(t1, killed + {dead.pid}, reclaimed) && Used(t1) == Used(tasks)
            && Numbered(t2, nextPid, reclaimed + [dead.pid]) && Accounted(t2, killed + {dead.pid}, reclaimed + [dead.pid])
            && |Used(t2)| == |Used(tasks)| - 1
  {
    hide Homes, Numbered, Accounted, Used, InQueueOrder, Without;
    var dead := tasks[t].(zombie := true, running := false);
    var t1 := tasks[t := dead];
    var t2 := t1[t := dead.(pid := 0)];
    assert t2 == tasks[t := dead.(pid := 0)];
    HomesKilled(tasks, running, suspended, zs, current, t);
    SlotHome(tasks, running, suspended, zs, current, t);
    NumberedKilled(tasks, nextPid, reclaimed, killed, t, dead);
    NumberedReclaimed(tasks, nextPid, reclaimed, killed, t, dead.(pid := 0));
    FewerInOrder(tasks, running, current, t);
    WithoutFacts(running, t);
    SameOrder(tasks, t1, Without(running, t), current);
    SameOrder(tasks, t2, Without(running, t), current);
    var k := WithoutSplit(zs, t);
  }

  lemma Cleared(tasks: Tasks, running: seq<Slot>, suspended: seq<Slot>, zs: seq<Slot>, current: Slot,
                nextPid: nat, reclaimed: seq<nat>, killed: set<nat>, t: Slot)
    requires Homes(tasks, running, suspended, zs, current) && InQueueOrder(tasks, running, current) && Quanta(tasks)
    requires Numbered(tasks, nextPid, reclaimed) && Accounted(tasks, killed, reclaimed) && tasks[t].pid == 0
    ensures var t1 := tasks[t := NO_TASK];
            && Homes(t1, running, suspended, zs, current) && InQueueOrder(t1, running, current) && Quanta(t1)
            && Numbered(t1, nextPid, reclaimed) && Accounted(t1, killed, reclaimed) && Used(t1) == Used(tasks)
            && (forall i :: i in running ==> t1[i] == tasks[i]) && t1[current] == tasks[current]
  {
    var t1 := tasks[t := NO_TASK];
    assert HomeOf(tasks, running, suspended, zs, current, t);
    forall i: Slot
      ensures HomeOf(t1, running, suspended, zs, current, i)
    {
      assert HomeOf(tasks, running, suspended, zs, current, i);
    }
    forall p: nat
      ensures IsZombie(t1, p) <==> IsZombie(tasks, p)
    {
      if p != 0 && IsZombie(tasks, p) {
        var i: Slot :| tasks[i].pid == p && tasks[i].zombie;
        assert t1[i].pid == p && t1[i].zombie;
      }
    }
    SameOrder(tasks, t1, running, current);
  }

  /** While a slot is free, fewer tasks are counted than there are slots. */
  lemma NotFull(tasks: Tasks)
    ensures (exists i: Slot :: tasks[i].pid == 0) ==> |Used(tasks)| < MAX_TASKS
  {
    if i: Slot :| tasks[i].pid == 0 {
      var all := Used(tasks) + set j: Slot | j < MAX_TASKS && tasks[j].pid == 0;
      SlotsCounted(all, MAX_TASKS);
      FewerMembers(Used(tasks), all, i);
    }
  }

  lemma FewerMembers(s: set<Slot>, all: set<Slot>, i: Slot)
    requires s <= all && i in all && i !in s
    ensures |s| < |all|
  {
    Subset(s, all - {i});
  }

  lemma {:induction false} Subset(s: set<Slot>, t: set<Slot>)
    requires s <= t
    ensures |s| <= |t|
    decreases |s|
  {
    if i :| i in s {
      Subset(s - {i}, t - {i});
    }
  }

  lemma {:induction false} SlotsCounted(s: set<Slot>, n: nat)
    requires n <= MAX_TASKS && forall i: Slot :: i in s <==> i < n
    ensures |s| == n
  {
    if n > 0 {
      assert n - 1 in s;
      SlotsCounted(s - {n - 1}, n - 1);
    } else {
      assert s == {};
    }
  }

  lemma SomeoneQueued(tasks: Tasks, s: seq<Slot>, t: Slot)
    ensures Enqueued(tasks, s, t) != []
  {
  }

  lemma Added(tasks: Tasks, running: seq<Slot>, suspended: seq<Slot>, zs: seq<Slot>, current: Slot,
              nextPid: nat, reclaimed: seq<nat>, killed: set<nat>, t: Slot, newTask: Task)
    requires Homes(tasks, running, suspended, zs, current) && InQueueOrder(tasks, running, current) && Quanta(tasks)
    requires Numbered(tasks, nextPid, reclaimed) && Accounted(tasks, killed, reclaimed)
    requires tasks[t].pid == 0 && newTask.pid == nextPid && !newTask.zombie && newTask.quantum > 0
    ensures t != current && t !in zs && t !in running
    ensures var t1 := tasks[t := newTask];
            var r1 := if newTask.running then Enqueued(t1, running, t) else running;
            && Homes(t1, r1, if newTask.running then suspended else suspended + [t], zs, current)
            && InQueueOrder(t1, r1, current) && Quanta(t1)
            && Numbered(t1, nextPid + 1, reclaimed) && Accounted(t1, killed, reclaimed) && |Used(t1)| == |Used(tasks)| + 1
            && forall i: Slot :: i in r1 <==> i in running || (newTask.running && i == t)
  {
    hide Used, Enqueued;
    var t1 := tasks[t := newTask];
    assert HomeOf(tasks, running, suspended, zs, current, t);
    HomesAdded(tasks, running, suspended, zs, current, t, newTask);
    NumberedAdded(tasks, nextPid, reclaimed, killed, t, newTask);
    SameOrder(tasks, t1, running, current);
    EnqueuedKeepsOrder(t1, running, t, current);
    EnqueuedKeepsPriority(t1, running, t);
    EnqueuedFacts(t1, running, t);
  }

  /** The task's slot is free. */
  function Buried(tasks: Tasks, t: Slot): Tasks {
    tasks[t := tasks[t].(pid := 0)]
  }

  lemma DeadNumber(tasks: Tasks, nextPid: nat, reclaimed: seq<nat>, killed: set<nat>, t: Slot)
    requires Numbered(tasks, nextPid, reclaimed) && Accounted(tasks, killed, reclaimed) && tasks[t].pid != 0 && tasks[t].zombie
    ensures tasks[t].pid !in reclaimed && tasks[t].pid in killed && forall i: Slot :: Buried(tasks, t)[i].pid != tasks[t].pid
    ensures Numbered(Buried(tasks, t), nextPid, reclaimed + [tasks[t].pid])
    ensures Accounted(Buried(tasks, t), killed, reclaimed + [tasks[t].pid])
    ensures |Used(Buried(tasks, t))| == |Used(tasks)| - 1
  {
    hide Used;
    NumberedReclaimed(tasks, nextPid, reclaimed, killed, t, tasks[t].(pid := 0));
    assert IsZombie(tasks, tasks[t].pid);
    assert killed + {tasks[t].pid} == killed;
  }

  /** A zombie that is not current leaves the list of zombies; it is on no other. */
  lemma ZombieRemoved(tasks: Tasks, running: seq<Slot>, suspended: seq<Slot>, zs: seq<Slot>, current: Slot, t: Slot)
    requires Homes(tasks, running, suspended, zs, current) && InQueueOrder(tasks, running, current)
    requires tasks[t].pid != 0 && tasks[t].zombie && t != current
    ensures !tasks[t].running && t in zs && Without(running, t) == running && Without(suspended, t) == suspended
    ensures t !in running && t !in suspended && t !in Without(zs, t)
    ensures Homes(Buried(tasks, t), running, suspended, Without(zs, t), current) && InQueueOrder(Buried(tasks, t), running, current)
  {
    hide Without;
    assert HomeOf(tasks, running, suspended, zs, current, t);
    var k := WithoutSplit(running, t);
    k := WithoutSplit(suspended, t);
    WithoutFacts(zs, t);
    SameOrder(tasks, Buried(tasks, t), running, current);
    forall i: Slot
      ensures HomeOf(Buried(tasks, t), running, suspended, Without(zs, t), current, i)
    {
      assert HomeOf(tasks, running, suspended, zs, current, i);
    }
  }

  class Scheduler {
    var tasks: Tasks
    var running: seq<Slot>
    var suspended: seq<Slot>
    var zombieTasks: seq<Slot>
    var zombies: int
    var current: Slot
    var needResched: bool
    var intrNestCount: int
    var taskCount: int
    var nextPid: nat
    /** Tasks that `add_task` has offered to the scheduler and has yet to count. */
    ghost var uncounted: nat
    /** The process numbers of all tasks killed so far, and of those reclaimed, in order. */
    ghost var killed: set<nat>
    ghost var reclaimed: seq<nat>

    ghost predicate Valid()
      reads this
    {
      Consistent() && zombies == |zombieTasks|
    }

    /** The counter of zombies apart. */
    ghost predicate Consistent()
      reads this
    {
      && Homes(tasks, running, suspended, zombieTasks, current)
      && InQueueOrder(tasks, running, current)
      && Numbered(tasks, nextPid, reclaimed) && Accounted(tasks, killed, reclaimed)
      && taskCount + uncounted == |Used(tasks)|
      && Quanta(tasks)
    }

    /** The task has died, is not current and is on no list: all that is missing is that its slot becomes free. */
    ghost predicate Dying(t: Slot)
      reads this
    {
      && tasks[t].pid != 0 && tasks[t].zombie
      && t != current && t !in running && t !in suspended && t !in zombieTasks
      && Homes(Buried(tasks, t), running, suspended, zombieTasks, current) && InQueueOrder(Buried(tasks, t), running, current)
      && Numbered(tasks, nextPid, reclaimed) && Accounted(tasks, killed, reclaimed)
      && taskCount + uncounted == |Used(tasks)|
      && Quanta(tasks)
    }

    /** The processor has, or will soon be offered to, a task of the highest priority. */
    ghost predicate Prompt()
      reads this`tasks, this`running, this`current, this`needResched
    {
      needResched || TopPriority(tasks, running, current)
    }

    /** `reclaim_task`: the last step of a task's death. Its process number is reclaimed for the first and only time. */
    method ReclaimTask(t: Slot)
      requires Dying(t)
      modifies this
      ensures Consistent() && old(tasks)[t].pid !in old(reclaimed) && forall i: Slot :: tasks[i].pid != old(tasks)[t].pid
      ensures tasks == Buried(old(tasks), t) && taskCount == old(taskCount) - 1 && reclaimed == old(reclaimed) + [old(tasks)[t].pid]
      ensures unchanged(`running, `suspended, `zombieTasks, `zombies, `current, `needResched, `intrNestCount, `nextPid, `uncounted, `killed)
    {
      hide Homes, InQueueOrder, Accounted, Used;
      DeadNumber(tasks, nextPid, reclaimed, killed, t);
      reclaimed := reclaimed + [tasks[t].pid];
      tasks := tasks[t := tasks[t].(pid := 0)];
      taskCount := taskCount - 1;
    }

    /** sched.c:198-205: every zombie is reclaimed. */
    method ReapZombies()
      requires Valid()
      modifies this
      ensures Valid() && zombieTasks == []
      ensures tasks == Reaped(old(tasks), old(zombieTasks)) && reclaimed == old(reclaimed) + Pids(old(tasks), old(zombieTasks))
      ensures unchanged(`running, `suspended, `current, `needResched, `intrNestCount, `nextPid, `uncounted, `killed)
    {
      hide Homes, InQueueOrder, Numbered, Accounted, Used, Quanta;
      while zombies != 0
        invariant Valid()
        invariant Reaped(tasks, zombieTasks) == Reaped(old(tasks), old(zombieTasks))
        invariant reclaimed + Pids(tasks, zombieTasks) == old(reclaimed) + Pids(old(tasks), old(zombieTasks))
        invariant unchanged(`running, `suspended, `current, `needResched, `intrNestCount, `nextPid, `uncounted, `killed)
        decreases |zombieTasks|
      {
        var zombie := zombieTasks[0];
        ghost var t0, zs := tasks, zombieTasks;
        OneReaped(tasks, running, suspended, zombieTasks, current, nextPid, reclaimed, killed);
        zombieTasks := zombieTasks[1..];
        ReclaimTask(zombie);
        zombies := zombies - 1;
      }
    }

    /** sched.c:215-249: the current task is queued again if it can run, and the first of the queue runs. */
    method Reschedule()
      requires Valid() && zombieTasks == [] && !Forbidden(tasks, current)
      modifies this
      ensures Valid() && Prompt() && !needResched
      ensures running == old(Queue(tasks, running, current))
      ensures running == [] ==> unchanged(`tasks, `current, `zombieTasks)
      ensures running != [] ==>
                && current == running[0] && tasks == Refreshed(old(tasks), running[0]) && tasks[current].timeLeft > 0
                && zombieTasks == (if old(tasks[current].zombie) then [old(current)] else [])
      ensures unchanged(`suspended, `intrNestCount, `nextPid, `uncounted, `killed, `reclaimed)
    {
      hide Homes, InQueueOrder, Numbered, Accounted, Used, Without, Enqueued;
      needResched := false;
      ghost var r0 := running;
      CurrentHome(tasks, running, suspended, zombieTasks, current);
      if tasks[current].running {
        HomesRequeued(tasks, running, suspended, zombieTasks, current);
        running := Enqueued(tasks, Without(running, current), current);
      } else {
        OrderedWithout(tasks, running, current);
      }
      if running != [] {
        var next := running[0];
        Switched(tasks, running, suspended, current, nextPid, reclaimed, killed);
        if tasks[next].timeLeft <= 0 {
          tasks := tasks[next := tasks[next].(timeLeft := tasks[next].quantum)];
        }
        if current != next {
          if tasks[current].zombie {
            zombieTasks := zombieTasks + [current];
            assert zombieTasks == [current];
            zombies := zombies + 1;
          }
          current := next;
        }
      }
    }

    /** What `schedule` makes of a state whose zombies are reclaimed. */
    ghost predicate Scheduled(t1: Tasks, running0: seq<Slot>, current0: Slot, needResched0: bool)
      reads this`tasks, this`running, this`zombieTasks, this`current, this`needResched
    {
      if Forbidden(t1, current0) then
        tasks == t1 && zombieTasks == [] && running == running0 && current == current0 && needResched == needResched0
      else
        && !needResched && running == Queue(t1, running0, current0)
        && (running == [] ==> tasks == t1 && current == current0 && zombieTasks == [])
        && (running != [] ==>
              && current == running[0] && tasks == Refreshed(t1, running[0]) && tasks[current].timeLeft > 0
              && zombieTasks == (if t1[current0].zombie then [current0] else []))
    }

    /** What `append_task` makes of a state, given the new task. */
    ghost predicate Appended(t: Slot, newTask: Task, tasks0: Tasks, running0: seq<Slot>, current0: Slot, zs0: seq<Slot>, needResched0: bool)
      reads this`tasks, this`running, this`zombieTasks, this`current, this`needResched, this`intrNestCount
    {
      var t1 := tasks0[t := newTask];
      var r1 := if newTask.running then Enqueued(t1, running0, t) else running0;
      var higher := newTask.running && newTask.pri > tasks0[current0].pri;
      if higher && intrNestCount == 0 then Scheduled(Reaped(t1, zs0), r1, current0, needResched0)
      else
        && tasks == t1 && running == r1 && zombieTasks == zs0 && current == current0
        && (needResched <==> needResched0 || higher)
    }

    /** `schedule`: zombies are reclaimed; then, unless preemption is forbidden, a task of the highest priority runs. */
    method Schedule()
      requires Valid()
      modifies this
      ensures Valid() && unchanged(`suspended, `intrNestCount, `nextPid, `uncounted, `killed)
      ensures reclaimed == old(reclaimed) + Pids(old(tasks), old(zombieTasks))
      ensures Scheduled(Reaped(old(tasks), old(zombieTasks)), old(running), old(current), old(needResched))
      ensures if old(tasks[current].forbidCount > 0 && tasks[current].running) then unchanged(`running, `current, `needResched) else Prompt() && !needResched
    {
      hide Homes, InQueueOrder, Numbered, Accounted, Used, Quanta, Reaped, Queue, Pids;
      ForbidSurvivesReaping(tasks, running, suspended, zombieTasks, current);
      ReapZombies();
      if tasks[current].forbidCount > 0 && tasks[current].running {
        return;
      }
      Reschedule();
    }

    /** The task array with the idle task alone, which is running (`add_initial_task`). */
    constructor (idle: Task)
      requires idle.pid == 1 && idle.running && !idle.zombie && idle.quantum > 0
      ensures Valid() && Prompt() && running == [0] && current == 0 && tasks[0] == idle && suspended == [] && zombieTasks == []
      ensures killed == {} && reclaimed == [] && intrNestCount == 0 && !needResched && nextPid == 2
      ensures forall i: Slot :: i > 0 ==> tasks[i] == NO_TASK
    {
      tasks := seq(MAX_TASKS, i => if i == 0 then idle else NO_TASK);
      running, suspended, zombieTasks := [0], [], [];
      zombies, current, needResched, intrNestCount := 0, 0, false, 0;
      taskCount, nextPid, uncounted := 1, 2, 0;
      killed, reclaimed := {}, [];
      new;
      assert Used(tasks) == {0};
      forall i: Slot
        ensures HomeOf(tasks, running, suspended, zombieTasks, current, i)
      {
      }
    }

    /** `suspend_task` */
    method SuspendTask(t: Slot)
      requires Valid() && tasks[t].pid != 0
      modifies this
      ensures Valid() && unchanged(`zombieTasks, `current, `intrNestCount, `nextPid, `uncounted, `killed, `reclaimed)
      ensures old(Prompt()) ==> Prompt()
      ensures if old(tasks)[t].running then
                && needResched && tasks == old(tasks)[t := old(tasks)[t].(running := false)]
                && running == Without(old(running), t) && suspended == old(suspended) + [t]
              else unchanged(this)
    {
      hide Homes, InQueueOrder, Numbered, Accounted, Used, Without;
      if tasks[t].running {
        SlotHome(tasks, running, suspended, zombieTasks, current, t);
        HomesSuspended(tasks, running, suspended, zombieTasks, current, t);
        FewerInOrder(tasks, running, current, t);
        ghost var t1 := tasks[t := tasks[t].(running := false)];
        NumberedSame(tasks, t1, nextPid, reclaimed, killed);
        SameOrder(tasks, t1, Without(running, t), current);
        running := Without(running, t);
        suspended := suspended + [t];
        tasks := tasks[t := tasks[t].(running := false)];
        needResched := true;
      }
    }

    /** `forbid` */
    method Forbid()
      requires Valid()
      modifies this
      ensures Valid() && tasks == old(tasks)[current := old(tasks)[current].(forbidCount := old(tasks)[current].forbidCount + 1)]
      ensures unchanged(`running, `suspended, `zombieTasks, `current, `needResched, `intrNestCount, `nextPid, `uncounted, `killed, `reclaimed)
      ensures old(Prompt()) ==> Prompt()
    {
      SetForbid(tasks[current].forbidCount + 1);
    }

    method SetForbid(n: int)
      requires Valid()
      modifies this`tasks
      ensures Valid() && tasks == old(tasks)[current := old(tasks)[current].(forbidCount := n)]
      ensures old(Prompt()) ==> Prompt()
    {
      hide Homes, InQueueOrder, Numbered, Accounted, Used;
      ghost var t1 := tasks[current := tasks[current].(forbidCount := n)];
      HomesRefreshed(tasks, running, suspended, zombieTasks, current, t1);
      SameOrder(tasks, t1, running, current);
      NumberedSame(tasks, t1, nextPid, reclaimed, killed);
      tasks := tasks[current := tasks[current].(forbidCount := n)];
    }

    /** `permit`: when preemption is allowed again, a request made meanwhile is honoured. */
    method Permit()
      requires Valid()
      modifies this
      ensures Valid() && (old(Prompt()) ==> Prompt()) && unchanged(`suspended, `intrNestCount, `nextPid, `uncounted, `killed)
      ensures old(Prompt()) && old(tasks[current].forbidCount) == 1 ==> TopPriority(tasks, running, current)
      ensures old(tasks[current].forbidCount) != 1 || !old(needResched) ==>
                && tasks == old(tasks)[current := old(tasks)[current].(forbidCount := old(tasks)[current].forbidCount - 1)]
                && unchanged(`running, `current, `needResched)
      ensures old(tasks[current].forbidCount) == 1 && old(needResched) ==>
                Scheduled(Reaped(old(tasks)[old(current) := old(tasks[current]).(forbidCount := 0)], old(zombieTasks)), old(running), old(current), true)
    {
      hide Homes, InQueueOrder, Numbered, Accounted, Used, Reaped, Queue, Quanta;
      SetForbid(tasks[current].forbidCount - 1);
      if tasks[current].forbidCount == 0 && needResched {
        ReapedAt(tasks, zombieTasks, current);
        ForbidSurvivesReaping(tasks, running, suspended, zombieTasks, current);
        Schedule();
      }
    }

    /** `suspend_current_task`, up to the point where the task is resumed and calls `permit`. */
    method SuspendCurrentTask()
      requires Valid() && tasks[current].running
      modifies this
      ensures Valid() && Prompt() && !needResched && unchanged(`intrNestCount, `nextPid, `uncounted, `killed)
      ensures old(current) in suspended && tasks[old(current)].forbidCount == old(tasks[current].forbidCount) + 1
      ensures running == Without(old(running), old(current)) && (running != [] ==> current == running[0] && current != old(current))
      ensures var t1 := old(tasks)[old(current) := old(tasks[current]).(running := false, forbidCount := old(tasks[current].forbidCount) + 1)];
              Scheduled(Reaped(t1, old(zombieTasks)), running, old(current), true)
    {
      hide Homes, InQueueOrder, Numbered, Accounted, Used, Reaped, Quanta, Without;
      ghost var t := current;
      SlotHome(tasks, running, suspended, zombieTasks, current, current);
      WithoutCurrent(tasks, running, suspended, zombieTasks, current);
      Forbid();
      CurrentHome(tasks, running, suspended, zombieTasks, current);
      SuspendTask(current);
      forall i: Slot
        ensures Reaped(tasks, zombieTasks)[i] == if i in zombieTasks then tasks[i].(pid := 0) else tasks[i]
      {
        ReapedAt(tasks, zombieTasks, i);
      }
      assert tasks == old(tasks)[t := old(tasks[current]).(running := false, forbidCount := old(tasks[current].forbidCount) + 1)];
      ghost var r1 := running;
      Schedule();
      assert running == r1;
    }

    /** `wake_task` */
    method WakeTask(t: Slot)
      requires Valid() && tasks[t].pid != 0
      modifies this
      ensures Valid() && unchanged(`intrNestCount, `nextPid, `uncounted, `killed)
      ensures old(tasks[t].running || tasks[t].frozen || tasks[t].zombie) ==> unchanged(this)
      ensures !old(tasks[t].running || tasks[t].frozen || tasks[t].zombie) ==> t in running && tasks[t].running && suspended == Without(old(suspended), t)
      ensures Sleeping(old(tasks)[t]) && (old(tasks)[t].pri <= old(tasks[current].pri) || intrNestCount != 0) ==>
                && tasks == old(tasks)[t := old(tasks)[t].(running := true)] && running == Enqueued(tasks, old(running), t)
                && current == old(current) && (needResched <==> old(needResched) || old(tasks)[t].pri > old(tasks[current].pri))
      ensures Sleeping(old(tasks)[t]) && old(tasks)[t].pri > old(tasks[current].pri) && intrNestCount == 0 ==>
                var t1 := old(tasks)[t := old(tasks)[t].(running := true)];
                Scheduled(Reaped(t1, old(zombieTasks)), Enqueued(t1, old(running), t), old(current), old(needResched))
      ensures old(Prompt()) ==> (Prompt() <==> !LostWakeup(old(tasks), old(current), t, intrNestCount, old(needResched)))
    {
      hide Homes, InQueueOrder, Numbered, Accounted, Used, Quanta, Without, Enqueued, Reaped, Queue;
      if !tasks[t].running && !tasks[t].frozen && !tasks[t].zombie {
        SlotHome(tasks, running, suspended, zombieTasks, current, t);
        Woken(tasks, running, suspended, zombieTasks, current, nextPid, reclaimed, killed, t);
        suspended := Without(suspended, t);
        tasks := tasks[t := tasks[t].(running := true)];
        running := Enqueued(tasks, running, t);
        Preempt(t);
      }
    }

    /** A task that was queued may deserve the processor (sched.c:92-99, sched.c:162-168). */
    method Preempt(t: Slot)
      requires Valid() && t in running && t !in zombieTasks
      modifies this
      ensures Valid() && t in running && tasks[t].running && unchanged(`suspended, `intrNestCount, `nextPid, `uncounted, `killed)
      ensures tasks[t] == old(tasks)[t].(timeLeft := tasks[t].timeLeft)
      ensures var higher := old(tasks)[t].pri > old(tasks[current].pri);
              && (!higher || intrNestCount != 0 ==> unchanged(`tasks, `running, `current, `zombieTasks, `reclaimed) && (needResched <==> old(needResched) || higher))
              && (higher && intrNestCount == 0 && old(Forbidden(tasks, current)) ==> needResched == old(needResched) && (Prompt() <==> old(needResched)))
              && (higher && intrNestCount == 0 && !old(Forbidden(tasks, current)) ==> Prompt())
              && (higher && intrNestCount == 0 ==> Scheduled(Reaped(old(tasks), old(zombieTasks)), old(running), old(current), old(needResched)))
    {
      hide Homes, InQueueOrder, Numbered, Accounted, Used, Quanta, Without, Enqueued;
      forall i: Slot
        ensures Reaped(tasks, zombieTasks)[i] == if i in zombieTasks then tasks[i].(pid := 0) else tasks[i]
      {
        ReapedAt(tasks, zombieTasks, i);
      }
      SlotHome(tasks, running, suspended, zombieTasks, current, t);
      CurrentNotReaped(tasks, running, suspended, zombieTasks, current);
      QueueKeeps(tasks, running, suspended, zombieTasks, current, t);
      hide Reaped, Queue;
      if tasks[current].pri < tasks[t].pri {
        if intrNestCount == 0 {
          Schedule();
        } else {
          needResched := true;
        }
      }
    }

    /** The interrupt of the clock (time.c:191-194), with the scheduler called on the way out if it is due. */
    method TimerInterrupt()
      requires Valid()
      modifies this
      ensures Valid() && unchanged(`suspended, `intrNestCount, `nextPid, `uncounted, `killed) && (old(Prompt()) ==> Prompt())
      ensures old(Undisturbed()) ==> Cpu(tasks, running, current) == Ticked(old(Cpu(tasks, running, current))) && zombieTasks == [] && !needResched
      ensures var t1 := old(tasks)[old(current) := old(tasks[current]).(timeLeft := old(tasks[current].timeLeft) - 1)];
              var due := old(needResched) || t1[old(current)].timeLeft <= 0;
              if intrNestCount == 0 && due then Scheduled(Reaped(t1, old(zombieTasks)), old(running), old(current), true)
              else tasks == t1 && needResched == due && unchanged(`running, `suspended, `zombieTasks, `current)
      ensures old(tasks[current].timeLeft) <= 1 && old(intrNestCount) == 0 && !old(Forbidden(tasks, current)) ==> TopPriority(tasks, running, current)
    {
      hide Homes, InQueueOrder, Numbered, Accounted, Used, Quanta, Without, Enqueued, Ordered, Distinct;
      intrNestCount := intrNestCount + 1;
      Tick();
      intrNestCount := intrNestCount - 1;
      ForbidSurvivesReaping(tasks, running, suspended, zombieTasks, current);
      SlotHome(tasks, running, suspended, zombieTasks, current, current);
      SomeoneQueued(tasks, Without(running, current), current);
      if intrNestCount == 0 && needResched {
        Schedule();
      }
    }

    /** The current task is preemptible and alone in deciding what happens next. */
    ghost predicate Undisturbed()
      reads this
    {
      && intrNestCount == 0 && zombieTasks == [] && !needResched
      && tasks[current].running && tasks[current].forbidCount <= 0 && Steady(Cpu(tasks, running, current))
    }

    method Tick()
      requires Valid()
      modifies this`tasks, this`needResched
      ensures Valid() && tasks == old(tasks)[current := old(tasks)[current].(timeLeft := old(tasks)[current].timeLeft - 1)]
      ensures needResched <==> old(needResched) || tasks[current].timeLeft <= 0
      ensures old(Prompt()) ==> Prompt()
    {
      hide Homes, InQueueOrder, Numbered, Accounted, Used;
      ghost var t1 := tasks[current := tasks[current].(timeLeft := tasks[current].timeLeft - 1)];
      HomesRefreshed(tasks, running, suspended, zombieTasks, current, t1);
      SameOrder(tasks, t1, running, current);
      NumberedSame(tasks, t1, nextPid, reclaimed, killed);
      tasks := tasks[current := tasks[current].(timeLeft := tasks[current].timeLeft - 1)];
      if tasks[current].timeLeft <= 0 {
        needResched := true;
      }
    }

    /** `kill_task`. Killing a task that is a zombie already breaks the count of zombies. */
    method KillTask(t: Slot) returns (r: int)
      requires Valid() && tasks[t].pid != 0 && (tasks[t].zombie ==> t != current)
      modifies this
      ensures old(tasks)[t].immortal ==> r == -1 && unchanged(this)
      ensures !old(tasks)[t].immortal ==> r == 0 && (Valid() <==> !old(tasks)[t].zombie)
      ensures !old(tasks)[t].immortal && t != old(current) ==>
                && unchanged(`current, `zombies, `needResched) && zombieTasks == Without(old(zombieTasks), t)
                && tasks[t].pid == 0 && reclaimed == old(reclaimed) + [old(tasks)[t].pid]
      ensures !old(tasks)[t].immortal && !old(tasks)[t].zombie ==>
                && (t != old(current) ==> zombieTasks == old(zombieTasks))
                && killed == old(killed) + {old(tasks)[t].pid} && running == Without(old(running), t) && suspended == Without(old(suspended), t)
                && (t == old(current) ==>
                      && Prompt() && !needResched && tasks[t].pid == old(tasks)[t].pid && tasks[t].zombie
                      && reclaimed == old(reclaimed) + Pids(old(tasks), old(zombieTasks))
                      && (running != [] ==> current == running[0] && zombieTasks == [t])
                      && Scheduled(Reaped(old(tasks)[t := old(tasks)[t].(zombie := true, running := false)], old(zombieTasks)), running, t, old(needResched)))
    {
      hide Homes, InQueueOrder, Numbered, Accounted, Used, Quanta, Without, Enqueued, Reaped, Pids;
      if tasks[t].immortal {
        return -1;
      }
      ghost var zs, before := zombieTasks, tasks;
      RemoveTask(t);
      if current != t {
        ReclaimTask(t);
      } else {
        PidsSame(before, tasks, zs);
        ReapedAt(tasks, zombieTasks, t);
        NowCurrent(tasks, running, suspended, zombieTasks, current);
        Schedule();
      }
      r := 0;
    }

    /** `remove_task`; a task is on one list at most. The current task goes on as a zombie, of any other one just the
        slot is left. */
    method RemoveTask(t: Slot)
      requires Valid() && tasks[t].pid != 0 && (tasks[t].zombie ==> t != current)
      modifies this
      ensures if t == current then Valid() else Dying(t)
      ensures killed == old(killed) + {old(tasks)[t].pid} && tasks == old(tasks)[t := old(tasks)[t].(zombie := true, running := false)]
      ensures running == Without(old(running), t) && suspended == Without(old(suspended), t) && zombieTasks == Without(old(zombieTasks), t)
      ensures unchanged(`zombies, `current, `needResched, `intrNestCount, `taskCount, `nextPid, `uncounted, `reclaimed)
      ensures t in old(zombieTasks) <==> old(tasks)[t].zombie
      ensures old(tasks)[t].zombie ==> |zombieTasks| == |old(zombieTasks)| - 1
      ensures !old(tasks)[t].zombie ==> zombieTasks == old(zombieTasks)
    {
      hide Homes, InQueueOrder, Numbered, Accounted, Used, Quanta, Without;
      SlotHome(tasks, running, suspended, zombieTasks, current, t);
      if tasks[t].zombie {
        ZombieOnList(tasks, running, suspended, zombieTasks, current, t);
        ZombieRemoved(tasks, running, suspended, zombieTasks, current, t);
        DeadNumber(tasks, nextPid, reclaimed, killed, t);
        assert tasks[t := tasks[t].(zombie := true, running := false)] == tasks;
        assert killed + {tasks[t].pid} == killed;
      } else {
        Killed(tasks, running, suspended, zombieTasks, current, nextPid, reclaimed, killed, t);
        WithoutFacts(running, t);
        WithoutFacts(suspended, t);
      }
      killed := killed + {tasks[t].pid};
      tasks := tasks[t := tasks[t].(zombie := true, running := false)];
      running, suspended, zombieTasks := Without(running, t), Without(suspended, t), Without(zombieTasks, t);
    }

    /** `alloc_task` */
    method AllocTask() returns (r: Option<Slot>)
      requires Valid()
      modifies this`tasks
      ensures Valid() && (old(Prompt()) ==> Prompt())
      ensures r.None? <==> forall i: Slot :: old(tasks)[i].pid != 0
      ensures r.None? ==> tasks == old(tasks)
      ensures r.Some? ==> old(tasks)[r.value].pid == 0 && tasks == old(tasks)[r.value := NO_TASK] && forall i: Slot :: i < r.value ==> old(tasks)[i].pid != 0
    {
      hide InQueueOrder, Numbered, Accounted, Used;
      for i := 0 to MAX_TASKS
        invariant tasks == old(tasks) && forall j: Slot :: j < i ==> tasks[j].pid != 0
      {
        if tasks[i].pid == 0 {
          Cleared(tasks, running, suspended, zombieTasks, current, nextPid, reclaimed, killed, i);
          tasks := tasks[i := NO_TASK];
          return Some(i);
        }
      }
      r := None;
    }

    /** The new task in an unused slot, with `append_task` (sched.c:83-103): it waits on the list of its state; a
        runnable one of higher priority is offered the processor. */
    method AppendTask(t: Slot, newTask: Task)
      requires Valid() && tasks[t].pid == 0 && newTask.pid == nextPid && !newTask.zombie && newTask.quantum > 0
      modifies this
      ensures Valid() && suspended == (if newTask.running then old(suspended) else old(suspended) + [t])
      ensures nextPid == old(nextPid) + 1 && uncounted == old(uncounted) + 1 && unchanged(`intrNestCount, `killed)
      ensures Appended(t, newTask, old(tasks), old(running), old(current), old(zombieTasks), old(needResched))
      ensures old(Prompt()) ==> (Prompt() <==> !Overlooked(newTask, old(tasks), old(current), intrNestCount, old(needResched)))
    {
      hide Homes, InQueueOrder, Numbered, Accounted, Used, Quanta, Without, Enqueued, Reaped, Queue;
      Added(tasks, running, suspended, zombieTasks, current, nextPid, reclaimed, killed, t, newTask);
      tasks := tasks[t := newTask];
      nextPid := nextPid + 1;
      uncounted := uncounted + 1;
      if newTask.running {
        running := Enqueued(tasks, running, t);
        Preempt(t);
      } else {
        suspended := suspended + [t];
      }
    }

    /** `add_task`; `resources` tells whether pages for stacks and page directory could be had. A runnable task may take
        over the processor before it is counted. */
    method AddTask(runnable: bool, immortal: bool, pri: int, quantum: nat, resources: bool) returns (r: Option<Slot>)
      requires Valid() && quantum > 0
      modifies this
      ensures Valid() && suspended == (if r.Some? && !runnable then old(suspended) + [r.value] else old(suspended))
      ensures unchanged(`intrNestCount, `uncounted, `killed)
      ensures r.Some? <==> resources && exists i: Slot :: old(tasks)[i].pid == 0
      ensures r.None? ==>
                && unchanged(`running, `zombieTasks, `current, `needResched, `nextPid, `taskCount, `reclaimed)
                && forall i: Slot :: tasks[i] == old(tasks)[i] || old(tasks)[i].pid == 0
      ensures r.Some? ==>
                var newTask := Task(old(nextPid), runnable, false, false, immortal, pri, quantum, 0, 0);
                && nextPid == old(nextPid) + 1 && old(tasks)[r.value].pid == 0 && (forall i: Slot :: i < r.value ==> old(tasks)[i].pid != 0)
                && Appended(r.value, newTask, old(tasks), old(running), old(current), old(zombieTasks), old(needResched))
                && (old(Prompt()) ==> (Prompt() <==> !Overlooked(newTask, old(tasks), old(current), intrNestCount, old(needResched))))
    {
      hide Homes, InQueueOrder, Numbered, Accounted, Used, Quanta, Without, Enqueued, Reaped, Queue;
      NotFull(tasks);
      if taskCount == MAX_TASKS {
        return None;
      }
      var slot := AllocTask();
      if slot.None? || !resources {
        return None;
      }
      hide Scheduled, Prompt;
      var t := slot.value;
      CurrentHome(tasks, running, suspended, zombieTasks, current);
      assert t != current && tasks[current] == old(tasks[current]);
      var newTask := Task(nextPid, runnable, false, false, immortal, pri, quantum, 0, 0);
      assert tasks[t := newTask] == old(tasks)[t := newTask];
      AppendTask(t, newTask);
      taskCount := taskCount + 1;
      uncounted := uncounted - 1;
      r := Some(t);
    }
  }

  // ----- Runs that go wrong -----

  const STD_QUANTUM := 51
  const IDLE := Task(1, true, false, false, true, -80, STD_QUANTUM, 0, 0)

  /** A task sleeps; the idle task forbids preemption, wakes it and permits preemption again: it runs on, with nothing
      to stop it, while the task of higher priority is ready. */
  method WakeupIsLost() returns (s: Scheduler, t: Slot)
    ensures fresh(s) && s.Valid() && s.current == 0 && s.tasks[0] == IDLE && s.intrNestCount == 0
    ensures t in s.running && s.tasks[t].pri > IDLE.pri && !s.needResched && !s.Prompt()
  {
    hide Homes, InQueueOrder, Numbered, Accounted, Used, Quanta, Queue, Without, Enqueued;
    s := new Scheduler(IDLE);
    assert s.tasks[1] == NO_TASK;
    var r := s.AddTask(false, false, 0, STD_QUANTUM, true);
    t := r.value;
    assert t != 0 && Sleeping(s.tasks[t]);
    s.Forbid();
    assert LostWakeup(s.tasks, s.current, t, s.intrNestCount, s.needResched) && s.zombieTasks == [];
    s.WakeTask(t);
    assert !s.Prompt();
    s.Permit();
  }

  lemma QueuedInFront(tasks: Tasks, t: Slot, idle: Slot)
    requires t != idle && tasks[t].pri > tasks[idle].pri
    ensures Enqueued(tasks, [idle], t) == [t, idle] && Enqueued(tasks, Without([t, idle], idle), idle) == [t, idle]
  {
    assert Without([t, idle], idle) == [t] + Without([idle], idle) == [t];
    assert Place(tasks, [t], idle) == 1 + Place(tasks, [t][1..], idle) == 1;
  }

  /** A task of higher priority kills itself, and the idle task kills it again before it is reclaimed: the counter of
      zombies is one, their list is empty. */
  method ZombieIsKilled() returns (s: Scheduler, t: Slot)
    ensures fresh(s) && s.zombieTasks == [] && s.zombies == 1 && !s.Valid()
  {
    hide Homes, InQueueOrder, Numbered, Accounted, Used, Quanta;
    s := new Scheduler(IDLE);
    assert s.tasks[1] == NO_TASK;
    var r := s.AddTask(true, false, 0, STD_QUANTUM, true);
    t := r.value;
    assert t != 0;
    QueuedInFront(s.tasks, t, 0);
    assert s.running == [t, 0];
    var r1 := s.KillTask(t);
    assert s.running == [0];
    var r2 := s.KillTask(t);
  }
}

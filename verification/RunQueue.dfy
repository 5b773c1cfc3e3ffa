/** The order of the run queue (sched.c:52-79) and how long a task waits in it. */
module RunQueue {
  import opened Sequences

  const MAX_TASKS := 16

  type Slot = i: nat | i < MAX_TASKS

  /** The scheduling fields of a task; `pid` is zero in an unused slot of the task array. */
  datatype Task = Task(pid: nat, running: bool, frozen: bool, zombie: bool, immortal: bool,
                       pri: int, quantum: nat, timeLeft: int, forbidCount: int)

  const NO_TASK := Task(0, false, false, false, false, 0, 0, 0, 0)

  type Tasks = s: seq<Task> | |s| == MAX_TASKS witness seq(MAX_TASKS, _ => NO_TASK)

  // ----- Lists of tasks -----

  lemma WithoutFacts(s: seq<Slot>, x: Slot)
    requires Distinct(s)
    ensures Distinct(Without(s, x))
    ensures forall y: Slot :: y in Without(s, x) <==> y in s && y != x
  {
    WithoutIsDistinct(s, x);
    forall y: Slot
      ensures y in Without(s, x) <==> y in s && y != x
    {
      WithoutMember(s, x, y);
    }
  }

  // ----- The order -----

  /** `a` may stand before `b`: by priority, then tasks with time left before exhausted ones. */
  predicate InOrder(a: Task, b: Task) {
    a.pri > b.pri || (a.pri == b.pri && (a.timeLeft <= 0 ==> b.timeLeft <= 0))
  }

  /** In order, leaving out `skip`. */
  ghost predicate OrderedBut(tasks: Tasks, s: seq<Slot>, skip: Slot) {
    forall m, n :: 0 <= m < n < |s| && s[m] != skip && s[n] != skip ==> InOrder(tasks[s[m]], tasks[s[n]])
  }

  ghost predicate Ordered(tasks: Tasks, s: seq<Slot>) {
    forall m, n :: 0 <= m < n < |s| ==> InOrder(tasks[s[m]], tasks[s[n]])
  }

  ghost predicate ByPriority(tasks: Tasks, s: seq<Slot>) {
    forall m, n :: 0 <= m < n < |s| ==> tasks[s[m]].pri >= tasks[s[n]].pri
  }

  /** A task that is queued goes before `x`. */
  predicate GoesBefore(t: Task, x: Task) {
    x.pri < t.pri || (t.timeLeft > 0 && x.pri == t.pri && x.timeLeft <= 0)
  }

  function Place(tasks: Tasks, s: seq<Slot>, t: Slot): (p: nat)
    ensures p <= |s|
    ensures forall m :: 0 <= m < p ==> !GoesBefore(tasks[t], tasks[s[m]])
    ensures p < |s| ==> GoesBefore(tasks[t], tasks[s[p]])
  {
    if s == [] || GoesBefore(tasks[t], tasks[s[0]]) then 0 else
      var p := Place(tasks, s[1..], t) + 1;
      assert forall m :: 0 < m < |s| ==> s[m] == s[1..][m - 1];
      p
  }

  /** `enqueue_task` */
  function Enqueued(tasks: Tasks, s: seq<Slot>, t: Slot): seq<Slot> {
    s[..Place(tasks, s, t)] + [t] + s[Place(tasks, s, t)..]
  }

  lemma EnqueuedFacts(tasks: Tasks, s: seq<Slot>, t: Slot)
    requires Distinct(s) && t !in s
    ensures Distinct(Enqueued(tasks, s, t))
    ensures forall y: Slot :: y in Enqueued(tasks, s, t) <==> y in s || y == t
  {
    var p, r := Place(tasks, s, t), Enqueued(tasks, s, t);
    forall m | 0 <= m < |r|
      ensures r[m] == if m < p then s[m] else if m == p then t else s[m - 1]
    {
    }
    forall y: Slot | y in s
      ensures y in r
    {
      var m :| 0 <= m < |s| && s[m] == y;
      assert y == r[if m < p then m else m + 1];
    }
    assert r[p] == t;
  }

  /** Where `t` stands in the queue `r`, which is `s` with `t` put in at `p`. */
  ghost predicate PutAt(s: seq<Slot>, r: seq<Slot>, t: Slot, p: nat) {
    p <= |s| && r == s[..p] + [t] + s[p..]
  }

  /** A queue in order keeps its order, and just these tasks stand before the one that is queued: those of a higher
      priority, and of its own priority all if it has used its time up, and else those with time left. */
  lemma EnqueuedStands(tasks: Tasks, s: seq<Slot>, t: Slot) returns (p: nat)
    requires Ordered(tasks, s)
    ensures PutAt(s, Enqueued(tasks, s, t), t, p)
    ensures forall m :: 0 <= m < |s| ==>
              (m < p <==> || tasks[s[m]].pri > tasks[t].pri
                          || (tasks[s[m]].pri == tasks[t].pri && (tasks[t].timeLeft <= 0 || tasks[s[m]].timeLeft > 0)))
  {
    p := Place(tasks, s, t);
    forall m | p <= m < |s|
      ensures tasks[s[m]].pri < tasks[t].pri || (tasks[s[m]].pri == tasks[t].pri && tasks[t].timeLeft > 0 && tasks[s[m]].timeLeft <= 0)
    {
      assert m > p ==> InOrder(tasks[s[p]], tasks[s[m]]);
    }
  }

  /** A queue with one task out of order, as the current one may be: the new task goes behind the longest stretch of
      tasks that may stand before it. */
  lemma EnqueuedBehindStretch(tasks: Tasks, s: seq<Slot>, t: Slot) returns (p: nat)
    requires ByPriority(tasks, s)
    ensures PutAt(s, Enqueued(tasks, s, t), t, p)
    ensures forall m :: 0 <= m < p ==>
              || tasks[s[m]].pri > tasks[t].pri
              || (tasks[s[m]].pri == tasks[t].pri && (tasks[t].timeLeft <= 0 || tasks[s[m]].timeLeft > 0))
    ensures p < |s| ==> tasks[s[p]].pri < tasks[t].pri || (tasks[s[p]].pri == tasks[t].pri && tasks[t].timeLeft > 0 && tasks[s[p]].timeLeft <= 0)
  {
    p := Place(tasks, s, t);
  }

  lemma EnqueuedKeepsPriority(tasks: Tasks, s: seq<Slot>, t: Slot)
    requires ByPriority(tasks, s)
    ensures ByPriority(tasks, Enqueued(tasks, s, t))
  {
    var p, r := Place(tasks, s, t), Enqueued(tasks, s, t);
    forall m, n | 0 <= m < n < |r|
      ensures tasks[r[m]].pri >= tasks[r[n]].pri
    {
      assert r[m] == if m < p then s[m] else if m == p then t else s[m - 1];
      assert r[n] == if n < p then s[n] else if n == p then t else s[n - 1];
    }
  }

  /** Queueing keeps the order, the current task left out, even while that one stands in the wrong place. */
  lemma EnqueuedKeepsOrder(tasks: Tasks, s: seq<Slot>, t: Slot, skip: Slot)
    requires ByPriority(tasks, s) && OrderedBut(tasks, s, skip)
    ensures OrderedBut(tasks, Enqueued(tasks, s, t), skip)
  {
    hide InOrder, GoesBefore, Place;
    var p, r := Place(tasks, s, t), Enqueued(tasks, s, t);
    forall m, n | 0 <= m < n < |r| && r[m] != skip && r[n] != skip
      ensures InOrder(tasks[r[m]], tasks[r[n]])
    {
      assert r[m] == if m < p then s[m] else if m == p then t else s[m - 1];
      assert r[n] == if n < p then s[n] else if n == p then t else s[n - 1];
      if m == p {
        BeforeTheRest(tasks[t], tasks[s[p]], tasks[s[n - 1]]);
      } else if n == p {
        NotBefore(tasks[s[m]], tasks[t]);
      }
    }
  }

  lemma BeforeTheRest(t: Task, x: Task, y: Task)
    requires GoesBefore(t, x) && x.pri >= y.pri
    ensures InOrder(t, y)
  {
  }

  lemma NotBefore(x: Task, t: Task)
    requires !GoesBefore(t, x)
    ensures InOrder(x, t)
  {
  }

  // ----- How long a task waits -----

  /** The processor with its run queue. */
  datatype Cpu = Cpu(tasks: Tasks, running: seq<Slot>, current: Slot)

  /** The scheduler at rest: the current task heads an ordered queue and has time left. */
  ghost predicate Steady(c: Cpu) {
    && Distinct(c.running) && Ordered(c.tasks, c.running)
    && c.running != [] && c.running[0] == c.current && c.tasks[c.current].timeLeft > 0
    && forall i :: i in c.running ==> c.tasks[i].quantum > 0
  }

  /** The part of `schedule` that chooses a task (sched.c:217-242), for a current task that is still runnable. */
  function Rescheduled(c: Cpu): Cpu {
    var running := Enqueued(c.tasks, Without(c.running, c.current), c.current);
    Cpu(Refreshed(c.tasks, running[0]), running, running[0])
  }

  /** A new quantum for a task that has used up the last one. */
  function Refreshed(tasks: Tasks, next: Slot): Tasks {
    if tasks[next].timeLeft <= 0 then tasks[next := tasks[next].(timeLeft := tasks[next].quantum)] else tasks
  }

  /** One tick of the clock (time.c:191-194), and the scheduler if it has ended the quantum. */
  function Ticked(c: Cpu): Cpu {
    var t := c.tasks[c.current];
    var tasks := c.tasks[c.current := t.(timeLeft := t.timeLeft - 1)];
    if t.timeLeft - 1 <= 0 then Rescheduled(Cpu(tasks, c.running, c.current)) else Cpu(tasks, c.running, c.current)
  }

  function After(c: Cpu, ticks: nat): Cpu
    decreases ticks
  {
    if ticks == 0 then c else After(Ticked(c), ticks - 1)
  }

  /** What a task may run for when its turn comes: the time it has left, or else a quantum. */
  function Turn(t: Task): nat {
    if t.timeLeft > 0 then t.timeLeft else t.quantum
  }

  function Wait(tasks: Tasks, s: seq<Slot>): nat {
    if s == [] then 0 else Turn(tasks[s[0]]) + Wait(tasks, s[1..])
  }

  lemma {:induction false} WaitSame(t0: Tasks, t1: Tasks, s: seq<Slot>)
    requires forall i :: i in s ==> Turn(t1[i]) == Turn(t0[i])
    ensures Wait(t1, s) == Wait(t0, s)
  {
    if s != [] { WaitSame(t0, t1, s[1..]); }
  }

  lemma WaitPositive(c: Cpu, k: nat)
    requires Steady(c) && 0 < k <= |c.running|
    ensures Wait(c.tasks, c.running[..k]) == c.tasks[c.current].timeLeft + Wait(c.tasks, c.running[1..k])
    ensures Wait(c.tasks, c.running[..k]) > 0
  {
    assert c.running[..k][1..] == c.running[1..k];
  }

  lemma TickInQuantum(c: Cpu, k: nat)
    requires Steady(c) && 0 < k < |c.running| && c.tasks[c.current].timeLeft > 1
    ensures var d := Ticked(c); Steady(d) && d.running == c.running && Wait(d.tasks, d.running[..k]) + 1 == Wait(c.tasks, c.running[..k])
  {
    var d := Ticked(c);
    forall i | i in c.running[1..k]
      ensures Turn(d.tasks[i]) == Turn(c.tasks[i])
    {
      var m :| 0 <= m < |c.running[1..k]| && c.running[1..k][m] == i;
      assert c.running[m + 1] == i;
    }
    WaitSame(c.tasks, d.tasks, c.running[1..k]);
    WaitPositive(c, k);
    WaitPositive(d, k);
  }

  lemma OrderedIsByPriority(tasks: Tasks, s: seq<Slot>, skip: Slot)
    requires Ordered(tasks, s)
    ensures ByPriority(tasks, s) && OrderedBut(tasks, s, skip)
  {
  }

  lemma RefreshedKeepsOrder(tasks: Tasks, s: seq<Slot>)
    requires Distinct(s) && s != [] && OrderedBut(tasks, s, s[0]) && ByPriority(tasks, s) && tasks[s[0]].quantum > 0
    ensures Ordered(Refreshed(tasks, s[0]), s) && Refreshed(tasks, s[0])[s[0]].timeLeft > 0
  {
  }

  /** At the end of the quantum the current task goes behind every task of its priority. */
  lemma BehindItsEquals(tasks: Tasks, s: seq<Slot>, t: Slot, k: nat)
    requires ByPriority(tasks, s) && k < |s| && tasks[t].timeLeft <= 0 && tasks[s[k]].pri == tasks[t].pri
    ensures k < Place(tasks, s, t)
  {
  }

  lemma Taken(c: Cpu)
    requires Steady(c)
    ensures var rest := c.running[1..];
            && Without(c.running, c.current) == rest && Distinct(rest) && c.current !in rest
            && Ordered(c.tasks[c.current := c.tasks[c.current].(timeLeft := 0)], rest)
  {
    var rest := c.running[1..];
    forall m | 0 <= m < |rest|
      ensures rest[m] == c.running[m + 1] && rest[m] != c.current
    {
    }
  }

  /** An exhausted task is queued behind the tasks of its priority, the first of which gets the processor. */
  lemma Requeued(tasks: Tasks, rest: seq<Slot>, x: Slot, k: nat)
    requires Distinct(rest) && x !in rest && Ordered(tasks, rest) && 0 < k <= |rest|
    requires tasks[x].timeLeft <= 0 && tasks[rest[k - 1]].pri == tasks[x].pri && tasks[rest[0]].quantum > 0
    ensures var r := Enqueued(tasks, rest, x);
            && r[..k] == rest[..k] && r[0] == rest[0] && Distinct(r) && (forall i: Slot :: i in r <==> i in rest || i == x)
            && Ordered(Refreshed(tasks, rest[0]), r) && Refreshed(tasks, rest[0])[rest[0]].timeLeft > 0
  {
    hide InOrder, Place, Refreshed, Enqueued;
    OrderedIsByPriority(tasks, rest, rest[0]);
    BehindItsEquals(tasks, rest, x, k - 1);
    EnqueuedFacts(tasks, rest, x);
    EnqueuedKeepsPriority(tasks, rest, x);
    EnqueuedKeepsOrder(tasks, rest, x, rest[0]);
    EnqueuedBegins(tasks, rest, x, k);
    RefreshedKeepsOrder(tasks, Enqueued(tasks, rest, x));
  }

  lemma EnqueuedBegins(tasks: Tasks, s: seq<Slot>, t: Slot, k: nat)
    requires 0 < k <= Place(tasks, s, t)
    ensures Enqueued(tasks, s, t)[..k] == s[..k] && Enqueued(tasks, s, t)[0] == s[0]
  {
  }

  lemma SameTurns(t0: Tasks, x: Slot, next: Slot, s: seq<Slot>)
    requires x !in s
    ensures Wait(Refreshed(t0[x := t0[x].(timeLeft := 0)], next), s) == Wait(t0, s)
  {
    WaitSame(t0, Refreshed(t0[x := t0[x].(timeLeft := 0)], next), s);
  }

  lemma TickEndsQuantum(c: Cpu, k: nat)
    requires Steady(c) && 0 < k < |c.running| && c.tasks[c.current].timeLeft == 1
    requires c.tasks[c.running[k]].pri == c.tasks[c.current].pri
    ensures var d := Ticked(c);
            && Steady(d) && k <= |d.running| && d.running[k - 1] == c.running[k] && (forall i: Slot :: i in d.running <==> i in c.running)
            && Wait(d.tasks, d.running[..k - 1]) + 1 == Wait(c.tasks, c.running[..k])
  {
    hide Enqueued, Ordered, Without, Place, InOrder, Wait;
    var d, x := Ticked(c), c.current;
    var rest := c.running[1..];
    var tasks := c.tasks[x := c.tasks[x].(timeLeft := 0)];
    Taken(c);
    assert rest[k - 1] == c.running[k] && rest[0] == c.running[1];
    assert rest[0] in c.running;
    Requeued(tasks, rest, x, k);
    assert d.running == Enqueued(tasks, rest, x) && d.tasks == Refreshed(tasks, rest[0]);
    assert d.running[..k] == rest[..k];
    assert d.running[..k - 1] == d.running[..k][..k - 1] == c.running[1..k];
    assert d.running[k - 1] == d.running[..k][k - 1];
    assert x !in c.running[1..k] by {
      assert forall m :: 0 <= m < |c.running[1..k]| ==> c.running[1..k][m] == c.running[m + 1];
    }
    SameTurns(c.tasks, x, rest[0], c.running[1..k]);
    WaitPositive(c, k);
    QuantumsKept(c, d, rest, x);
  }

  lemma QuantumsKept(c: Cpu, d: Cpu, rest: seq<Slot>, x: Slot)
    requires Steady(c) && c.running == [x] + rest && forall i: Slot :: i in d.running <==> i in rest || i == x
    requires forall i: Slot :: d.tasks[i].quantum == c.tasks[i].quantum
    ensures forall i: Slot :: i in d.running <==> i in c.running
    ensures forall i :: i in d.running ==> d.tasks[i].quantum > 0
  {
  }

  /** With nothing else happening every tick brings a task of the highest priority one tick nearer to the processor. */
  lemma TickBringsNearer(c: Cpu, k: nat) returns (j: nat)
    requires Steady(c) && 0 < k < |c.running| && c.tasks[c.running[k]].pri == c.tasks[c.current].pri
    ensures var d := Ticked(c);
            && Steady(d) && j < |d.running| && d.running[j] == c.running[k]
            && d.tasks[d.running[j]].pri == d.tasks[d.current].pri
            && Wait(d.tasks, d.running[..j]) + 1 == Wait(c.tasks, c.running[..k])
  {
    hide Enqueued, Ordered, Without, Place, InOrder, Wait, Distinct;
    if c.tasks[c.current].timeLeft > 1 {
      TickInQuantum(c, k);
      j := k;
    } else {
      TickEndsQuantum(c, k);
      j := k - 1;
      SamePriority(c, k, Ticked(c), j);
    }
  }

  lemma SamePriority(c: Cpu, k: nat, d: Cpu, j: nat)
    requires Steady(c) && 0 < k < |c.running| && c.tasks[c.running[k]].pri == c.tasks[c.current].pri
    requires Steady(d) && j < |d.running| && d.running[j] == c.running[k]
    requires forall i: Slot :: i in d.running <==> i in c.running
    requires forall i: Slot :: d.tasks[i].pri == c.tasks[i].pri
    ensures d.tasks[d.running[j]].pri == d.tasks[d.current].pri
  {
    var m :| 0 <= m < |c.running| && c.running[m] == d.current;
  }

  /** The task at place `k` of the highest priority runs after exactly as many ticks as the tasks before it may take, and not earlier. */
  lemma {:induction false} RunsInTurn(c: Cpu, k: nat)
    requires Steady(c) && k < |c.running| && c.tasks[c.running[k]].pri == c.tasks[c.current].pri
    ensures var n := Wait(c.tasks, c.running[..k]);
            && After(c, n).current == c.running[k]
            && forall m: nat :: m < n ==> After(c, m).current != c.running[k]
    decreases Wait(c.tasks, c.running[..k])
  {
    var n := Wait(c.tasks, c.running[..k]);
    if k > 0 {
      WaitPositive(c, k);
      var d := Ticked(c);
      var j := TickBringsNearer(c, k);
      RunsInTurn(d, j);
      forall m: nat | m < n
        ensures After(c, m).current != c.running[k]
      {
        if m > 0 {
          assert After(c, m) == After(d, m - 1);
        }
      }
      assert After(c, n) == After(d, n - 1);
    }
  }

  // ----- Who runs first -----

  lemma WholeOrder(tasks: Tasks, s: seq<Slot>, t: Slot)
    requires Ordered(tasks, s) && Distinct(s) && t !in s
    ensures Ordered(tasks, Enqueued(tasks, s, t))
  {
    hide InOrder, GoesBefore, Place;
    var p, r := Place(tasks, s, t), Enqueued(tasks, s, t);
    forall m, n | 0 <= m < n < |r|
      ensures InOrder(tasks[r[m]], tasks[r[n]])
    {
      assert r[m] == if m < p then s[m] else if m == p then t else s[m - 1];
      assert r[n] == if n < p then s[n] else if n == p then t else s[n - 1];
      if m == p {
        OrderedIsByPriority(tasks, s, t);
        BeforeTheRest(tasks[t], tasks[s[p]], tasks[s[n - 1]]);
      } else if n == p {
        NotBefore(tasks[s[m]], tasks[t]);
      }
    }
  }

  lemma {:induction false} WaitLonger(tasks: Tasks, s: seq<Slot>, i: nat, j: nat)
    requires i <= j <= |s|
    ensures Wait(tasks, s[..i]) <= Wait(tasks, s[..j])
  {
    if i > 0 {
      assert s[..i][1..] == s[1..][..i - 1] && s[..j][1..] == s[1..][..j - 1];
      WaitLonger(tasks, s[1..], i - 1, j - 1);
    }
  }

  /** The nearer a task of the highest priority stands to the front, the earlier it runs. */
  lemma FrontRunsFirst(c: Cpu, i: nat, j: nat)
    requires Steady(c) && i < j < |c.running|
    requires c.tasks[c.running[i]].pri == c.tasks[c.current].pri && c.tasks[c.running[j]].pri == c.tasks[c.current].pri
    ensures var n := Wait(c.tasks, c.running[..i]);
            && After(c, n).current == c.running[i]
            && forall m: nat :: m <= n ==> After(c, m).current != c.running[j]
  {
    RunsInTurn(c, i);
    RunsInTurn(c, j);
    WaitLonger(c.tasks, c.running, i, j);
  }

  /** Two tasks of the highest priority with time left, woken one after the other, stand behind the running one in that
      order, and run in that order. */
  lemma WokenRunInOrder(c: Cpu, a: Slot, b: Slot)
    requires Steady(c) && a !in c.running && b !in c.running && a != b
    requires c.tasks[a].pri == c.tasks[b].pri == c.tasks[c.current].pri
    requires c.tasks[a].timeLeft > 0 && c.tasks[b].timeLeft > 0 && c.tasks[a].quantum > 0 && c.tasks[b].quantum > 0
    ensures var d := Cpu(c.tasks, Enqueued(c.tasks, Enqueued(c.tasks, c.running, a), b), c.current);
            && Steady(d)
            && exists n: nat :: After(d, n).current == a && forall m: nat :: m <= n ==> After(d, m).current != b
  {
    var r1 := Enqueued(c.tasks, c.running, a);
    var p := QueuedBehindCurrent(c, a);
    var c1 := Cpu(c.tasks, r1, c.current);
    assert r1[p] == a;
    EnqueuedFacts(c.tasks, c.running, a);
    var q := QueuedBehindCurrent(c1, b);
    var d := Cpu(c.tasks, Enqueued(c.tasks, r1, b), c.current);
    assert p < q;
    assert d.running[p] == a && d.running[q] == b;
    FrontRunsFirst(d, p, q);
    assert After(d, Wait(d.tasks, d.running[..p])).current == a;
  }

  /** A woken task of the highest priority with time left leaves the processor steady. */
  lemma QueuedBehindCurrent(c: Cpu, t: Slot) returns (p: nat)
    requires Steady(c) && t !in c.running && c.tasks[t].pri == c.tasks[c.current].pri && c.tasks[t].timeLeft > 0 && c.tasks[t].quantum > 0
    ensures Steady(Cpu(c.tasks, Enqueued(c.tasks, c.running, t), c.current))
    ensures 0 < p <= |c.running| && PutAt(c.running, Enqueued(c.tasks, c.running, t), t, p)
    ensures forall m :: 0 <= m < |c.running| && c.tasks[c.running[m]].pri == c.tasks[t].pri && c.tasks[c.running[m]].timeLeft > 0 ==> m < p
  {
    hide Enqueued;
    p := EnqueuedStands(c.tasks, c.running, t);
    EnqueuedFacts(c.tasks, c.running, t);
    WholeOrder(c.tasks, c.running, t);
    assert c.running[0] == c.current;
  }

  /** A current task that is queued again with time left goes behind all others of its priority that have time left. */
  lemma RequeuedBehindEquals(tasks: Tasks, running: seq<Slot>, current: Slot) returns (p: nat)
    requires Ordered(tasks, Without(running, current)) && tasks[current].timeLeft > 0
    ensures var rest := Without(running, current);
            && PutAt(rest, Enqueued(tasks, rest, current), current, p)
            && forall m :: 0 <= m < |rest| && tasks[rest[m]].pri == tasks[current].pri && tasks[rest[m]].timeLeft > 0 ==> m < p
  {
    hide Enqueued, Without;
    p := EnqueuedStands(tasks, Without(running, current), current);
  }
}

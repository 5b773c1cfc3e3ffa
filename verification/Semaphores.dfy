/** Semaphores (tasks.h:163-221) over task lists (sched.c:256-342), under every interleaving of their steps. */
module Semaphores {

  /** Where a task, or a handler of interrupts, is in `wait` or `signal`. */
  datatype Pc =
    | Outside
    | Refused    // in `wait`, having found the semaphore blocked
    | Queued     // in `wait`, having put itself into the list
    | Parked     // in `wait`, having suspended itself
    | Holding    // has returned from `wait`, or is to signal for somebody else
    | Clearing   // in `signal`, having found nobody waiting
    | Waking     // in `signal`, having found somebody waiting

  /** The atomic steps: the exchange, the operations on lists made with interrupts masked, single accesses, the return
      from `wait` of a task that runs again, and the beginning of a completion, which signals without having waited. */
  datatype Step =
    | Exchange(t: nat) | AddToList(t: nat) | Suspend(t: nat) | Return(t: nat)
    | Test(t: nat) | Clear(t: nat) | WakeFirst(t: nat)
    | Complete(t: nat)

  /** A semaphore and its users; the logs record who was queued and who was handed the semaphore, in order. */
  datatype Sem = Sem(blocked: bool, waiting: seq<nat>, pc: map<nat, Pc>, suspended: set<nat>,
                     queuedLog: seq<nat>, handedLog: seq<nat>)

  // ----- Steps -----

  /** The task has been let through, or handed the semaphore, and has not given it up. */
  predicate Owns(s: Sem, t: nat) {
    t in s.pc && (s.pc[t] in {Holding, Clearing, Waking} || (s.pc[t] in {Queued, Parked} && t !in s.waiting))
  }

  predicate Unowned(s: Sem) {
    forall t :: t in s.pc ==> !Owns(s, t)
  }

  /** The step is the next one of its task. Owners signal; a semaphore that was initialised blocked, and that nobody
      owns, is signalled by whatever it is blocked for. */
  predicate Enabled(s: Sem, step: Step) {
    step.t in s.pc &&
    match step
    case Exchange(t) => s.pc[t] == Outside
    case AddToList(t) => s.pc[t] == Refused
    case Suspend(t) => s.pc[t] == Queued
    case Return(t) => s.pc[t] == Parked && t !in s.suspended
    case Test(t) => s.pc[t] == Holding
    case Clear(t) => s.pc[t] == Clearing
    case WakeFirst(t) => s.pc[t] == Waking
    case Complete(t) => s.pc[t] == Outside && s.blocked && Unowned(s)
  }

  function Goes(s: Sem, t: nat, p: Pc): Sem {
    s.(pc := s.pc[t := p])
  }

  /** Waking a task that runs has no effect. */
  function Apply(s: Sem, step: Step): Sem
    requires Enabled(s, step)
  {
    match step
    case Exchange(t) => Goes(s, t, if s.blocked then Refused else Holding).(blocked := true)
    case AddToList(t) => Goes(s, t, Queued).(waiting := s.waiting + [t], queuedLog := s.queuedLog + [t])
    case Suspend(t) => Goes(s, t, Parked).(suspended := s.suspended + {t})
    case Return(t) => Goes(s, t, Holding)
    case Test(t) => Goes(s, t, if s.waiting == [] then Clearing else Waking)
    case Clear(t) => Goes(s, t, Outside).(blocked := false)
    case WakeFirst(t) =>
      if s.waiting == [] then Goes(s, t, Outside) else
        Goes(s, t, Outside).(waiting := s.waiting[1..], suspended := s.suspended - {s.waiting[0]},
                             handedLog := s.handedLog + [s.waiting[0]])
    case Complete(t) => Goes(s, t, Holding)
  }

  // ----- The invariant -----

  /** At most one owner, none while the semaphore is open; in the list are tasks on their way to sleep or asleep;
      hand-over in the order of queueing. */
  ghost predicate Sound(s: Sem) {
    && (!s.blocked ==> Unowned(s))
    && (forall t, u :: Owns(s, t) && Owns(s, u) ==> t == u)
    && (forall t :: t in s.waiting ==> t in s.pc && s.pc[t] in {Queued, Parked})
    && (forall m, n :: 0 <= m < n < |s.waiting| ==> s.waiting[m] != s.waiting[n])
    && (forall t :: t in s.suspended ==> t in s.pc && s.pc[t] == Parked)
    && (forall t :: t in s.waiting && s.pc[t] == Parked ==> t in s.suspended)
    && (forall t :: t in s.pc && s.pc[t] == Waking ==> s.waiting != [])
    && s.handedLog + s.waiting == s.queuedLog
  }

  /** `set_sem_clear` and `set_sem_blocked` */
  function Fresh(tasks: set<nat>, blocked: bool): Sem {
    Sem(blocked, [], map t | t in tasks :: Outside, {}, [], [])
  }

  lemma FreshIsSound(tasks: set<nat>, blocked: bool)
    ensures Sound(Fresh(tasks, blocked)) && Unowned(Fresh(tasks, blocked))
  {
  }

  lemma StepKeepsSound(s: Sem, step: Step)
    requires Sound(s) && Enabled(s, step)
    ensures Sound(Apply(s, step))
  {
    var r := Apply(s, step);
    match step
    case AddToList(t) => Queueing(s, t);
    case WakeFirst(t) => Handing(s, t);
    case Exchange(t) =>
      assert forall u :: Owns(r, u) <==> Owns(s, u) || (u == t && !s.blocked);
    case Complete(t) =>
      assert forall u :: Owns(r, u) <==> u == t;
    case Clear(t) =>
      assert Owns(s, t);
      assert forall u :: Owns(r, u) <==> Owns(s, u) && u != t;
    case _ =>
      assert forall u :: Owns(r, u) <==> Owns(s, u);
  }

  lemma Queueing(s: Sem, t: nat)
    requires Sound(s) && Enabled(s, AddToList(t))
    ensures Sound(Apply(s, AddToList(t)))
  {
    var r := Apply(s, AddToList(t));
    assert t !in s.waiting;
    assert forall u :: u in r.waiting <==> u in s.waiting || u == t;
    assert forall u :: Owns(r, u) <==> Owns(s, u);
    assert s.handedLog + (s.waiting + [t]) == (s.handedLog + s.waiting) + [t];
  }

  /** The owner hands over to the task that has waited longest. */
  lemma Handing(s: Sem, t: nat)
    requires Sound(s) && Enabled(s, WakeFirst(t))
    ensures Sound(Apply(s, WakeFirst(t)))
    ensures s.waiting != [] && s.waiting[0] != t && s.waiting[0] in s.pc && Owns(Apply(s, WakeFirst(t)), s.waiting[0])
  {
    var r := Apply(s, WakeFirst(t));
    var first := s.waiting[0];
    assert Owns(s, t) && first in s.waiting && first != t;
    forall u
      ensures u in r.waiting <==> u in s.waiting && u != first
    {
    }
    forall u
      ensures Owns(r, u) <==> u == first
    {
      assert Owns(s, u) ==> u == t;
    }
    forall u | u in r.pc
      ensures r.pc[u] != Waking
    {
      assert Owns(r, u) ==> u == first;
    }
    assert s.handedLog + s.waiting == (s.handedLog + [first]) + s.waiting[1..];
  }

  // ----- Runs -----

  predicate CanRun(s: Sem, steps: seq<Step>)
    decreases |steps|
  {
    steps == [] || (Enabled(s, steps[0]) && CanRun(Apply(s, steps[0]), steps[1..]))
  }

  function Run(s: Sem, steps: seq<Step>): Sem
    requires CanRun(s, steps)
    decreases |steps|
  {
    if steps == [] then s else Run(Apply(s, steps[0]), steps[1..])
  }

  lemma {:induction false} RunKeepsSound(s: Sem, steps: seq<Step>)
    requires Sound(s) && CanRun(s, steps)
    ensures Sound(Run(s, steps))
    decreases |steps|
  {
    if steps != [] {
      StepKeepsSound(s, steps[0]);
      RunKeepsSound(Apply(s, steps[0]), steps[1..]);
    }
  }

  ghost function Owners(s: Sem): set<nat> {
    set t | t in s.pc && Owns(s, t)
  }

  /** Whatever the interleaving, the owners and the open semaphore together are at most one, and those that were
      handed the semaphore are the first of those that queued, in order. */
  lemma MutualExclusion(tasks: set<nat>, blocked: bool, steps: seq<Step>)
    requires CanRun(Fresh(tasks, blocked), steps)
    ensures var s := Run(Fresh(tasks, blocked), steps);
            && |Owners(s)| + (if s.blocked then 0 else 1) <= 1
            && |s.handedLog| <= |s.queuedLog| && s.handedLog == s.queuedLog[..|s.handedLog|]
            && s.waiting == s.queuedLog[|s.handedLog|..]
  {
    FreshIsSound(tasks, blocked);
    RunKeepsSound(Fresh(tasks, blocked), steps);
    var s := Run(Fresh(tasks, blocked), steps);
    if t :| t in Owners(s) {
      assert Owners(s) == {t};
    }
  }

  // ----- Waiting for a completion -----

  /** Blocked, and to be signalled by a completion. */
  predicate Pending(s: Sem) {
    s.blocked && Unowned(s)
  }

  function Completions(steps: seq<Step>): nat {
    if steps == [] then 0 else (if steps[0].Complete? then 1 else 0) + Completions(steps[1..])
  }

  lemma PendingStep(s: Sem, step: Step)
    requires Sound(s) && Enabled(s, step)
    ensures Pending(Apply(s, step)) <==> Pending(s) && !step.Complete?
  {
    var r := Apply(s, step);
    match step
    case Exchange(t) =>
      assert forall u :: Owns(r, u) <==> Owns(s, u) || (u == t && !s.blocked);
    case AddToList(t) =>
      assert forall u :: u in r.waiting <==> u in s.waiting || u == t;
      assert forall u :: Owns(r, u) <==> Owns(s, u);
    case Suspend(t) =>
      assert forall u :: Owns(r, u) <==> Owns(s, u);
    case WakeFirst(t) =>
      Handing(s, t);
      assert Owns(s, t);
    case _ =>
      assert Owns(s, step.t) || step.Complete?;
      assert step.Clear? || Owns(r, step.t);
  }

  /** A semaphore that was initialised blocked is signalled once on behalf of what it was blocked for, one that was
      initialised open never; before that nobody gets past `wait`. */
  lemma {:induction false} CompletesOnce(s: Sem, steps: seq<Step>)
    requires Sound(s) && CanRun(s, steps)
    ensures Pending(Run(s, steps)) ==> Pending(s)
    ensures Completions(steps) == (if Pending(s) && !Pending(Run(s, steps)) then 1 else 0)
    decreases |steps|
  {
    if steps == [] {
      assert Run(s, steps) == s;
    } else {
      StepKeepsSound(s, steps[0]);
      PendingStep(s, steps[0]);
      CompletesOnce(Apply(s, steps[0]), steps[1..]);
    }
  }

  lemma NobodyPassesBeforeCompletion(tasks: set<nat>, steps: seq<Step>, t: nat)
    requires CanRun(Fresh(tasks, true), steps) && Owns(Run(Fresh(tasks, true), steps), t)
    ensures Completions(steps) == 1
  {
    FreshIsSound(tasks, true);
    CompletesOnce(Fresh(tasks, true), steps);
  }

  // ----- Reaching the end of `wait` -----

  ghost predicate ReachesBy(s: Sem, steps: seq<Step>, t: nat) {
    CanRun(s, steps) && t in Run(s, steps).pc && Run(s, steps).pc[t] == Holding
  }

  /** Some continuation takes the task out of `wait`. */
  ghost predicate CanPass(s: Sem, t: nat) {
    exists steps :: ReachesBy(s, steps, t)
  }

  lemma Passed(s: Sem, t: nat)
    requires t in s.pc && s.pc[t] == Holding
    ensures CanPass(s, t)
  {
    assert ReachesBy(s, [], t);
  }

  lemma PassesAfter(s: Sem, step: Step, t: nat)
    requires Enabled(s, step) && CanPass(Apply(s, step), t)
    ensures CanPass(s, t)
  {
    var rest :| ReachesBy(Apply(s, step), rest, t);
    assert ([step] + rest)[1..] == rest;
    assert ReachesBy(s, [step] + rest, t);
  }

  /** A parked task that is handed the semaphore can pass. */
  lemma WokenPasses(s: Sem, t: nat)
    requires Sound(s) && Enabled(s, WakeFirst(t)) && s.waiting != []
    requires s.waiting[0] in s.pc && s.pc[s.waiting[0]] == Parked
    ensures CanPass(Apply(s, WakeFirst(t)), s.waiting[0])
  {
    Handing(s, t);
    var r := Apply(s, WakeFirst(t));
    Passed(Apply(r, Return(s.waiting[0])), s.waiting[0]);
    PassesAfter(r, Return(s.waiting[0]), s.waiting[0]);
  }

  /** The first task that waits for a completion can pass, wherever it is in `wait`. */
  lemma CompletionLetsThrough(s: Sem, c: nat, w: nat)
    requires Sound(s) && Pending(s) && c != w && c in s.pc && s.pc[c] == Outside && w in s.pc
    requires s.waiting == [] || s.waiting[0] == w
    ensures CanPass(s, w)
    decreases match s.pc[w] case Refused => 2 case Queued => 1 case _ => 0
  {
    assert !Owns(s, w) && (s.waiting != [] ==> w in s.waiting);
    if s.pc[w] == Refused {
      StepKeepsSound(s, AddToList(w));
      PendingStep(s, AddToList(w));
      CompletionLetsThrough(Apply(s, AddToList(w)), c, w);
      PassesAfter(s, AddToList(w), w);
    } else if s.pc[w] == Queued {
      StepKeepsSound(s, Suspend(w));
      PendingStep(s, Suspend(w));
      CompletionLetsThrough(Apply(s, Suspend(w)), c, w);
      PassesAfter(s, Suspend(w), w);
    } else {
      CompletedPasses(s, c, w);
    }
  }

  lemma CompletedPasses(s: Sem, c: nat, w: nat)
    requires Sound(s) && Pending(s) && c != w && c in s.pc && s.pc[c] == Outside && w in s.pc
    requires if s.waiting == [] then s.pc[w] == Outside else s.waiting[0] == w && s.pc[w] == Parked
    ensures CanPass(s, w)
  {
    var s1 := Apply(s, Complete(c));
    var s2 := Apply(s1, Test(c));
    StepKeepsSound(s, Complete(c));
    StepKeepsSound(s1, Test(c));
    if s.waiting == [] {
      var s3 := Apply(s2, Clear(c));
      Passed(Apply(s3, Exchange(w)), w);
      PassesAfter(s3, Exchange(w), w);
      PassesAfter(s2, Clear(c), w);
    } else {
      WokenPasses(s2, c);
      PassesAfter(s2, WakeFirst(c), w);
    }
    PassesAfter(s1, Test(c), w);
    PassesAfter(s, Complete(c), w);
  }

  // ----- Progress fails: a hand-over to a task that is still running -----

  /** The task was handed the semaphore, and will sleep on or has yet to suspend itself. */
  predicate Lost(s: Sem, t: nat) {
    t in s.pc && t !in s.waiting && (s.pc[t] == Queued || (s.pc[t] == Parked && t in s.suspended))
  }

  lemma LostOneStep(s: Sem, t: nat, step: Step)
    requires Sound(s) && Lost(s, t) && Enabled(s, step)
    ensures Lost(Apply(s, step), t) && s.waiting <= Apply(s, step).waiting
  {
    assert Owns(s, t);
    assert Owns(s, step.t) ==> step.t == t;
  }

  /** Then it never comes out of `wait`, nobody else ever owns the semaphore, and whoever waits goes on waiting. */
  lemma {:induction false} StuckForEver(s: Sem, t: nat, steps: seq<Step>)
    requires Sound(s) && Lost(s, t) && CanRun(s, steps)
    ensures var r := Run(s, steps);
            && Lost(r, t) && r.blocked && s.waiting <= r.waiting
            && forall u :: u in r.pc ==> (Owns(r, u) ==> u == t) && r.pc[u] != Holding
    decreases |steps|
  {
    assert Owns(s, t);
    if steps == [] {
      assert forall u :: u in s.pc && s.pc[u] == Holding ==> Owns(s, u);
    } else {
      StepKeepsSound(s, steps[0]);
      LostOneStep(s, t, steps[0]);
      StuckForEver(Apply(s, steps[0]), t, steps[1..]);
    }
  }

  /** After a hand-over some continuation takes the new owner out of `wait` if and only if it had suspended itself by
      then; otherwise none does, and none lets anybody else through. */
  lemma HandOverReaches(s: Sem, t: nat)
    requires Sound(s) && Enabled(s, WakeFirst(t))
    ensures s.waiting != [] && s.waiting[0] in s.pc
    ensures CanPass(Apply(s, WakeFirst(t)), s.waiting[0]) <==> s.pc[s.waiting[0]] == Parked
    ensures (exists u :: CanPass(Apply(s, WakeFirst(t)), u)) <==> s.pc[s.waiting[0]] == Parked
  {
    Handing(s, t);
    var r, first := Apply(s, WakeFirst(t)), s.waiting[0];
    assert first in s.waiting;
    if s.pc[first] == Parked {
      WokenPasses(s, t);
    } else {
      assert Lost(r, first);
      forall u, steps | ReachesBy(r, steps, u)
        ensures false
      {
        StuckForEver(r, first, steps);
      }
    }
  }

  /** Two tasks. */
  function Two(blocked: bool, waiting: seq<nat>, p: Pc, q: Pc, suspended: set<nat>, queuedLog: seq<nat>, handedLog: seq<nat>): Sem {
    Sem(blocked, waiting, map[1 := p, 2 := q], suspended, queuedLog, handedLog)
  }

  predicate Moves(s: Sem, step: Step, r: Sem) {
    Enabled(s, step) && Apply(s, step) == r
  }

  lemma TwoGo(p: Pc, q: Pc, r: Pc)
    ensures map[1 := p, 2 := q][1 := r] == map[1 := r, 2 := q] && map[1 := p, 2 := q][2 := r] == map[1 := p, 2 := r]
  {
  }

  /** Both call `wait`, and the second finds the semaphore blocked. */
  lemma BothEnter()
    ensures Moves(Fresh({1, 2}, false), Exchange(1), Two(true, [], Holding, Outside, {}, [], []))
    ensures Moves(Two(true, [], Holding, Outside, {}, [], []), Exchange(2), Two(true, [], Holding, Refused, {}, [], []))
  {
    assert Fresh({1, 2}, false).pc == map[1 := Outside, 2 := Outside];
    TwoGo(Outside, Outside, Holding);
    TwoGo(Holding, Outside, Refused);
  }

  /** A run of six steps. */
  lemma SixSteps(s0: Sem, a: Step, s1: Sem, b: Step, s2: Sem, c: Step, s3: Sem, d: Step, s4: Sem, e: Step, s5: Sem, f: Step, s6: Sem)
    requires Moves(s0, a, s1) && Moves(s1, b, s2) && Moves(s2, c, s3) && Moves(s3, d, s4) && Moves(s4, e, s5) && Moves(s5, f, s6)
    ensures CanRun(s0, [a, b, c, d, e, f]) && Run(s0, [a, b, c, d, e, f]) == s6
  {
    hide CanRun, Run, Enabled, Apply;
    RunNothing(s6);
    RunLonger(s5, f, [], s6);
    assert [f] + [] == [f];
    RunLonger(s4, e, [f], s6);
    assert [e] + [f] == [e, f];
    RunLonger(s3, d, [e, f], s6);
    assert [d] + [e, f] == [d, e, f];
    RunLonger(s2, c, [d, e, f], s6);
    assert [c] + [d, e, f] == [c, d, e, f];
    RunLonger(s1, b, [c, d, e, f], s6);
    assert [b] + [c, d, e, f] == [b, c, d, e, f];
    RunLonger(s0, a, [b, c, d, e, f], s6);
    assert [a] + [b, c, d, e, f] == [a, b, c, d, e, f];
  }

  lemma WokenTooEarly()
    ensures Moves(Two(true, [], Holding, Refused, {}, [], []), AddToList(2), Two(true, [2], Holding, Queued, {}, [2], []))
    ensures Moves(Two(true, [2], Holding, Queued, {}, [2], []), Test(1), Two(true, [2], Waking, Queued, {}, [2], []))
    ensures Moves(Two(true, [2], Waking, Queued, {}, [2], []), WakeFirst(1), Two(true, [], Outside, Queued, {}, [2], [2]))
    ensures Moves(Two(true, [], Outside, Queued, {}, [2], [2]), Suspend(2), Two(true, [], Outside, Parked, {2}, [2], [2]))
    ensures Lost(Two(true, [], Outside, Parked, {2}, [2], [2]), 2)
  {
    TwoGo(Holding, Refused, Queued);
    TwoGo(Holding, Queued, Waking);
    TwoGo(Waking, Queued, Outside);
    TwoGo(Outside, Queued, Parked);
  }

  /** Such an interleaving of two tasks exists: the second is woken after it has queued and before it has suspended
      itself. */
  lemma WakeupCanBeLost()
    ensures var steps := [Exchange(1), Exchange(2), AddToList(2), Test(1), WakeFirst(1), Suspend(2)];
            CanRun(Fresh({1, 2}, false), steps) && Lost(Run(Fresh({1, 2}, false), steps), 2)
  {
    hide CanRun, Run, Fresh, Two, Lost, Moves;
    BothEnter();
    WokenTooEarly();
    SixSteps(Fresh({1, 2}, false), Exchange(1), Two(true, [], Holding, Outside, {}, [], []), Exchange(2),
      Two(true, [], Holding, Refused, {}, [], []), AddToList(2), Two(true, [2], Holding, Queued, {}, [2], []), Test(1),
      Two(true, [2], Waking, Queued, {}, [2], []), WakeFirst(1), Two(true, [], Outside, Queued, {}, [2], [2]), Suspend(2),
      Two(true, [], Outside, Parked, {2}, [2], [2]));
  }

  lemma RunNothing(s: Sem)
    ensures CanRun(s, []) && Run(s, []) == s
  {
  }

  lemma RunLonger(s: Sem, step: Step, rest: seq<Step>, r: Sem)
    requires Enabled(s, step) && CanRun(Apply(s, step), rest) && Run(Apply(s, step), rest) == r
    ensures CanRun(s, [step] + rest) && Run(s, [step] + rest) == r
  {
    assert ([step] + rest)[1..] == rest;
  }

  // ----- Progress fails: opened with somebody in the list -----

  predicate Queues(steps: seq<Step>) {
    exists k :: 0 <= k < |steps| && steps[k].AddToList?
  }

  /** While `t` is between the test and the clearing, others can only be refused, queue and go to sleep. */
  lemma {:induction false} WhileClearing(s: Sem, t: nat, mid: seq<Step>)
    requires Sound(s) && t in s.pc && s.pc[t] == Clearing && CanRun(s, mid)
    requires forall k :: 0 <= k < |mid| ==> mid[k].t != t
    ensures var r := Run(s, mid);
            Sound(r) && t in r.pc && r.pc[t] == Clearing && s.waiting <= r.waiting && (r.waiting != s.waiting <==> Queues(mid))
    decreases |mid|
  {
    if mid != [] {
      var u := mid[0].t;
      assert Owns(s, t) && !Owns(s, u);
      var s1 := Apply(s, mid[0]);
      StepKeepsSound(s, mid[0]);
      WhileClearing(s1, t, mid[1..]);
      assert forall k :: 0 <= k < |mid| - 1 ==> mid[1..][k] == mid[k + 1];
      assert Queues(mid) <==> mid[0].AddToList? || Queues(mid[1..]) by {
        if Queues(mid) && !mid[0].AddToList? {
          var k :| 0 <= k < |mid| && mid[k].AddToList?;
          assert mid[1..][k - 1].AddToList?;
        }
      }
    }
  }

  lemma {:induction false} RunOn(s: Sem, first: seq<Step>, second: seq<Step>)
    requires CanRun(s, first + second)
    ensures CanRun(s, first) && CanRun(Run(s, first), second) && Run(s, first + second) == Run(Run(s, first), second)
    decreases |first|
  {
    if first == [] {
      assert first + second == second;
    } else {
      assert (first + second)[1..] == first[1..] + second;
      RunOn(Apply(s, first[0]), first[1..], second);
    }
  }

  /** `signal` tests and clears in two steps. A task is left in the list of an open semaphore if and only if one has
      queued between them. */
  lemma LeftBehind(s: Sem, t: nat, mid: seq<Step>)
    requires Sound(s) && Enabled(s, Test(t)) && s.waiting == []
    requires forall k :: 0 <= k < |mid| ==> mid[k].t != t
    requires CanRun(s, [Test(t)] + mid + [Clear(t)])
    ensures var r := Run(s, [Test(t)] + mid + [Clear(t)]);
            Sound(r) && !r.blocked && (r.waiting != [] <==> Queues(mid))
  {
    var s1 := Apply(s, Test(t));
    assert [Test(t)] + mid + [Clear(t)] == [Test(t)] + (mid + [Clear(t)]);
    assert ([Test(t)] + (mid + [Clear(t)]))[1..] == mid + [Clear(t)];
    RunOn(s1, mid, [Clear(t)]);
    StepKeepsSound(s, Test(t));
    WhileClearing(s1, t, mid);
    StepKeepsSound(Run(s1, mid), Clear(t));
    assert Run(Run(s1, mid), [Clear(t)]) == Apply(Run(s1, mid), Clear(t)) by {
      RunNothing(Apply(Run(s1, mid), Clear(t)));
    }
  }

  /** Nobody is about to call `wait`. */
  predicate AllInside(s: Sem) {
    forall u :: u in s.pc ==> s.pc[u] != Outside
  }

  /** Open, with a task in the list that sleeps. */
  predicate SleepsUnderOpen(s: Sem, w: nat) {
    !s.blocked && s.waiting != [] && s.waiting[0] == w && w in s.pc && s.pc[w] == Parked
  }

  lemma {:induction false} SleepsOn(s: Sem, steps: seq<Step>)
    requires Sound(s) && !s.blocked && AllInside(s) && CanRun(s, steps)
    ensures Sound(Run(s, steps)) && !Run(s, steps).blocked
    decreases |steps|
  {
    if steps != [] {
      StepKeepsSound(s, steps[0]);
      assert !Owns(s, steps[0].t);
      SleepsOn(Apply(s, steps[0]), steps[1..]);
    }
  }

  /** It is not lost, but the semaphore being open does not help it: it can pass if and only if somebody else calls
      `wait` once more, whose `signal` it then needs. */
  lemma PassesWithAnother(s: Sem, w: nat)
    requires Sound(s) && SleepsUnderOpen(s, w)
    ensures CanPass(s, w) <==> !AllInside(s)
  {
    if AllInside(s) {
      forall steps | ReachesBy(s, steps, w)
        ensures false
      {
        SleepsOn(s, steps);
        assert Owns(Run(s, steps), w);
      }
    } else {
      var u :| u in s.pc && s.pc[u] == Outside;
      var s1 := Apply(s, Exchange(u));
      var s2 := Apply(s1, Test(u));
      StepKeepsSound(s, Exchange(u));
      StepKeepsSound(s1, Test(u));
      WokenPasses(s2, u);
      PassesAfter(s2, WakeFirst(u), w);
      PassesAfter(s1, Test(u), w);
      PassesAfter(s, Exchange(u), w);
    }
  }

  lemma QueuedTooLate()
    ensures Moves(Two(true, [], Holding, Refused, {}, [], []), Test(1), Two(true, [], Clearing, Refused, {}, [], []))
    ensures Moves(Two(true, [], Clearing, Refused, {}, [], []), AddToList(2), Two(true, [2], Clearing, Queued, {}, [2], []))
    ensures Moves(Two(true, [2], Clearing, Queued, {}, [2], []), Suspend(2), Two(true, [2], Clearing, Parked, {2}, [2], []))
    ensures Moves(Two(true, [2], Clearing, Parked, {2}, [2], []), Clear(1), Two(false, [2], Outside, Parked, {2}, [2], []))
    ensures SleepsUnderOpen(Two(false, [2], Outside, Parked, {2}, [2], []), 2)
  {
    TwoGo(Holding, Refused, Clearing);
    TwoGo(Clearing, Refused, Queued);
    TwoGo(Clearing, Queued, Parked);
    TwoGo(Clearing, Parked, Outside);
  }

  /** Such an interleaving of two tasks exists. */
  lemma WaiterCanBeLeftBehind()
    ensures var steps := [Exchange(1), Exchange(2), Test(1), AddToList(2), Suspend(2), Clear(1)];
            CanRun(Fresh({1, 2}, false), steps) && SleepsUnderOpen(Run(Fresh({1, 2}, false), steps), 2)
  {
    hide CanRun, Run, Fresh, Two, SleepsUnderOpen, Moves;
    BothEnter();
    QueuedTooLate();
    SixSteps(Fresh({1, 2}, false), Exchange(1), Two(true, [], Holding, Outside, {}, [], []), Exchange(2),
      Two(true, [], Holding, Refused, {}, [], []), Test(1), Two(true, [], Clearing, Refused, {}, [], []), AddToList(2),
      Two(true, [2], Clearing, Queued, {}, [2], []), Suspend(2), Two(true, [2], Clearing, Parked, {2}, [2], []), Clear(1),
      Two(false, [2], Outside, Parked, {2}, [2], []));
  }

  // ----- The source's form -----

  /** The semaphore as the kernel updates it. Each method is one atomic step on behalf of task `t`; the ghost field
      is the state of the whole system. */
  class Semaphore {
    var blocked: bool
    var waiting: seq<nat>
    ghost var all: Sem

    ghost predicate Valid()
      reads this
    {
      Sound(all) && blocked == all.blocked && waiting == all.waiting
    }

    /** `set_sem_blocked` and `set_sem_clear` */
    constructor (blocked: bool, ghost tasks: set<nat>)
      ensures Valid() && all == Fresh(tasks, blocked)
    {
      this.blocked := blocked;
      waiting := [];
      all := Fresh(tasks, blocked);
      new;
      FreshIsSound(tasks, blocked);
    }

    /** The exchange in `wait`; a task that finds the semaphore open owns it. */
    method ExchangeBlocked(ghost t: nat) returns (wasBlocked: bool)
      requires Valid() && Enabled(all, Exchange(t))
      modifies this
      ensures Valid() && all == Apply(old(all), Exchange(t))
      ensures !wasBlocked <==> Owns(all, t)
    {
      StepKeepsSound(all, Exchange(t));
      wasBlocked := blocked;
      blocked := true;
      all := Apply(all, Exchange(t));
    }

    /** `add_task_list` walks to the end of the list. */
    method AddTaskList(t: nat)
      requires Valid() && Enabled(all, AddToList(t))
      modifies this
      ensures Valid() && all == Apply(old(all), AddToList(t))
    {
      StepKeepsSound(all, AddToList(t));
      var head := 0;
      while head < |waiting|
        invariant head <= |waiting|
      {
        head := head + 1;
      }
      waiting := waiting[..head] + [t];
      all := Apply(all, AddToList(t));
    }

    /** The test in `signal` */
    method NobodyWaiting(ghost t: nat) returns (nobody: bool)
      requires Valid() && Enabled(all, Test(t))
      modifies this`all
      ensures Valid() && all == Apply(old(all), Test(t))
      ensures Enabled(all, if nobody then Clear(t) else WakeFirst(t))
    {
      StepKeepsSound(all, Test(t));
      nobody := waiting == [];
      all := Apply(all, Test(t));
    }

    method ClearBlocked(ghost t: nat)
      requires Valid() && Enabled(all, Clear(t))
      modifies this
      ensures Valid() && all == Apply(old(all), Clear(t)) && Unowned(all)
    {
      StepKeepsSound(all, Clear(t));
      blocked := false;
      all := Apply(all, Clear(t));
    }

    /** `wake_up_first_task`, returning the task that is passed to `wake_task`. */
    method WakeUpFirstTask(ghost t: nat) returns (first: nat)
      requires Valid() && Enabled(all, WakeFirst(t))
      modifies this
      ensures Valid() && all == Apply(old(all), WakeFirst(t)) && Owns(all, first) && first !in all.suspended
      ensures old(waiting) == [first] + waiting
    {
      Handing(all, t);
      first := waiting[0];
      waiting := waiting[1..];
      all := Apply(all, WakeFirst(t));
    }

    /** `signal` from `end_request`, with interrupts masked, by the handler `c` that completes what the semaphore was
        blocked for: the semaphore is open, or the first waiting task owns it. */
    method SignalCompletion(ghost c: nat)
      requires Valid() && Enabled(all, Complete(c))
      modifies this
      ensures Valid() && !Pending(all) && CanRun(old(all), [Complete(c), Test(c), if old(waiting) == [] then Clear(c) else WakeFirst(c)])
      ensures all == Run(old(all), [Complete(c), Test(c), if old(waiting) == [] then Clear(c) else WakeFirst(c)])
      ensures if old(waiting) == [] then !blocked && waiting == []
              else blocked && old(waiting) == [old(waiting)[0]] + waiting && Owns(all, old(waiting)[0])
    {
      ghost var last := if waiting == [] then Clear(c) else WakeFirst(c);
      StepKeepsSound(all, Complete(c));
      all := Apply(all, Complete(c));
      ghost var s1 := all;
      var nobody := NobodyWaiting(c);
      ghost var s2 := all;
      if nobody {
        ClearBlocked(c);
      } else {
        var first := WakeUpFirstTask(c);
      }
      ghost var s3 := all;
      RunNothing(s3);
      RunLonger(s2, last, [], s3);
      RunLonger(s1, Test(c), [last] + [], s3);
      RunLonger(old(all), Complete(c), [Test(c)] + ([last] + []), s3);
      assert [Complete(c)] + ([Test(c)] + ([last] + [])) == [Complete(c), Test(c), last];
    }
  }
}

/** ide.c against a controller that transfers sector after sector and may report an error at any of them. */
module IdeDriver {
  import opened IdeRequests

  datatype Handler = NoHandler | ReadIntr | WriteIntr | RecalIntr

  /** The controller: the command it executes, the next sector, how many are left, and for a write the sector that
      was put out to it. */
  datatype Controller = Quiet | Recalibrating(dev: nat) | Transfer(write: bool, dev: nat, next: nat, left: nat, out: Sector)

  /** What the driver puts out to it. */
  datatype Sent = Reset | Recalibrate(dev: nat) | Sectors(write: bool, dev: nat, block: nat, count: nat)

  /** ide.c:357-358 */
  function Resets(pending: bool): seq<Sent> {
    if pending then [Reset] else []
  }

  /** The controller accepts the request, its answers being those from `asked` on. */
  ghost predicate Taken(r: Req, devs: seq<Dev>, answer: nat -> bool, asked: nat) {
    && r.dev < |devs| && r.block < Total(devs[r.dev]) && answer(asked)
    && (r.command == Read || (r.command == Write && answer(asked + 1)))
  }

  /** A failure after so many retries of a sector is the fourth, the eighth, the twelfth, the sixteenth, or the last. */
  predicate RecalibrationDue(retries: nat) {
    retries == 3 || retries == 7 || retries == 11 || retries == 15 || retries == 16
  }

  predicate ResetDue(retries: nat) {
    retries == 7 || retries == 15 || retries == 16
  }

  /** ide.c:464-484 */
  lemma EveryFourth(retries: nat)
    requires retries <= MAX_RETRIES
    ensures RecalibrationDue(retries) <==> (retries + 1) % RECAL_FREQ == 0 || retries == MAX_RETRIES
    ensures ResetDue(retries) <==> (retries + 1) % RESET_FREQ == 0 || retries == MAX_RETRIES
    ensures ResetDue(retries) ==> RecalibrationDue(retries)
  {
  }

  lemma TakenAgain(r: Req, devs: seq<Dev>, answer: nat -> bool, asked: nat, retries: nat)
    ensures Taken(r.(retries := retries), devs, answer, asked) == Taken(r, devs, answer, asked)
  {
  }

  /** Nothing can be asked of the controller for it (ide.c:390-397, ide.c:437-442). */
  ghost predicate Impossible(r: Req, devs: seq<Dev>, answer: nat -> bool, asked: nat) {
    r.dev >= |devs| || r.block >= Total(devs[r.dev]) || (r.command == Other && answer(asked))
  }

  /** Driver and controller agree on what is under way; every request that is not completed is under way or queued
      behind something that is. */
  ghost predicate Wired(reqs: seq<Req>, queue: seq<nat>, current: Current, ideIntr: Handler, ctl: Controller) {
    match current
    case Free => queue == [] && ideIntr == NoHandler
    case Fake => ideIntr == RecalIntr && ctl.Recalibrating?
    case Real(id) =>
      && id < |reqs|
      && var r := reqs[id];
      && r.command != Other
      && ideIntr == (if r.command == Read then ReadIntr else WriteIntr)
      && ctl.Transfer? && ctl.write == (r.command == Write) && ctl.dev == r.dev && ctl.next == r.block && ctl.left == r.nblocks
      && (ctl.write ==> 0 <= r.done < |r.data| && ctl.out == r.data[r.done])
  }

  /** No transfer is under way while the controller waits for a reset or a drive for recalibration. */
  ghost predicate Clean(current: Current, resetPending: bool, devs: seq<Dev>) {
    !resetPending && (current != Fake ==> forall d :: 0 <= d < |devs| ==> !devs[d].recalibrate)
  }

  /** The open requests in the order in which they will be served. */
  function Order(current: Current, queue: seq<nat>): seq<nat> {
    if current.Real? then [current.id] + queue else queue
  }

  /** Requests have been completed from the front of `t`, and `s` is left. */
  ghost predicate Suffix(s: seq<nat>, t: seq<nat>) {
    |s| <= |t| && s == t[|t| - |s|..]
  }

  lemma NoFlags(current: Current, devs: seq<Dev>, resetPending: bool)
    requires Clean(current, resetPending, devs) && current != Fake && |devs| == 2
    ensures !resetPending && !devs[0].recalibrate && !devs[1].recalibrate
  {
  }

  lemma OneFlag(devs: seq<Dev>, d: nat)
    requires |devs| == 2 && d < 2 && !devs[0].recalibrate && !devs[1].recalibrate
    ensures var flagged := devs[d := devs[d].(recalibrate := true)];
            && (flagged[0].recalibrate || flagged[1].recalibrate) && d == (if flagged[0].recalibrate then 0 else 1)
            && flagged[d := flagged[d].(recalibrate := false)] == devs
  {
  }

  lemma SuffixTwice(a: seq<nat>, b: seq<nat>, c: seq<nat>)
    requires Suffix(a, b) && Suffix(b, c)
    ensures Suffix(a, c)
  {
    assert c[|c| - |b|..][|b| - |a|..] == c[|c| - |a|..];
  }

  lemma SuffixSelf(a: seq<nat>, x: nat)
    ensures Suffix(a, a) && Suffix(a, [x] + a) && Suffix(a, a + [])
  {
    assert a[0..] == a && ([x] + a)[1..] == a && a + [] == a;
  }

  ghost predicate Prefix(s: seq<Completion>, t: seq<Completion>) {
    |s| <= |t| && t[..|s|] == s
  }

  lemma PrefixSelf(s: seq<Completion>)
    ensures Prefix(s, s)
  {
  }

  lemma PrefixTwice(a: seq<Completion>, b: seq<Completion>, c: seq<Completion>)
    requires Prefix(a, b) && Prefix(b, c)
    ensures Prefix(a, c)
  {
    assert c[..|b|][..|a|] == c[..|a|];
  }

  class Driver {
    var reqs: seq<Req>
    var queue: seq<nat>
    var current: Current
    var devs: seq<Dev>
    var disk: seq<seq<Sector>>
    var ideIntr: Handler
    var resetPending: bool
    var ctl: Controller
    var sent: seq<Sent>
    /** What the status registers say each time that they are read: ready without error, or not. */
    const answer: nat -> bool
    var asked: nat
    /** The requests as they were submitted, and as they were completed. */
    ghost var submitted: seq<Req>
    ghost var log: seq<Completion>

    ghost predicate Holding(loose: Current)
      reads this
    {
      Sound(reqs, submitted, queue, current, loose, devs, disk, log)
    }

    ghost predicate Valid()
      reads this
    {
      Holding(Free) && Wired(reqs, queue, current, ideIntr, ctl) && Clean(current, resetPending, devs)
    }

    /** Never negative, by `MeasureIsBound`. */
    ghost function Left(): int
      reads this
    {
      Measure(reqs, devs, current)
    }

    constructor (devs: seq<Dev>, disk: seq<seq<Sector>>, answer: nat -> bool)
      requires DrivesOk(devs, disk) && !devs[0].recalibrate && !devs[1].recalibrate
      ensures Valid() && this.devs == devs && this.disk == disk && this.answer == answer && submitted == [] && log == [] && sent == []
    {
      reqs, queue, current, ideIntr, resetPending, ctl, sent, asked := [], [], Free, NoHandler, false, Quiet, [], 0;
      this.answer := answer;
      this.devs := devs;
      this.disk := disk;
      submitted, log := [], [];
    }

    /** `wait_stat` and `test_stat` */
    method Ready() returns (ok: bool)
      modifies this`asked
      ensures ok == answer(old(asked)) && asked == old(asked) + 1
    {
      ok := answer(asked);
      asked := asked + 1;
    }

    /** `end_request` */
    method EndRequest(result: int, retries: nat)
      requires Holding(Free) && current.Real?
      requires CompletionOk(Completion(current.id, reqs[current.id].(completed := true, result := result, retries := retries), disk), submitted, devs)
      modifies this`reqs, this`current, this`log
      ensures Holding(Free) && current == Free && Prefix(old(log), log)
      ensures Work(reqs) < old(Work(reqs)) && Left() <= old(Left()) - 4
      ensures Suffix(Order(current, queue), old(Order(current, queue)))
      ensures var id, r := old(current).id, old(reqs[current.id]).(completed := true, result := result, retries := retries);
              reqs == old(reqs)[id := r] && log == old(log) + [Completion(id, r, disk)]
    {
      hide Sound, CompletionOk, Suffix;
      var id := current.id;
      SuffixSelf(queue, id);
      CurrentHasWork(reqs, submitted, queue, current, devs, disk, log);
      ghost var r := reqs[id].(completed := true, result := result, retries := retries);
      Ended(reqs, submitted, queue, current, devs, disk, log, r);
      WorkAfter(reqs, id, r);
      log := log + [Completion(id, r, disk)];
      reqs := reqs[id := reqs[id].(completed := true, result := result, retries := retries)];
      current := Free;
    }

    /** `handle_error`: the request is tried again from the sector that failed, up to sixteen times. */
    method HandleError()
      requires Holding(Free) && current.Real?
      modifies this`reqs, this`current, this`log, this`queue, this`devs, this`resetPending, this`ideIntr
      ensures Holding(Free) && current == Free && ideIntr == NoHandler && Prefix(old(log), log)
      ensures Work(reqs) < old(Work(reqs)) && Left() < old(Left())
      ensures Suffix(Order(current, queue), old(Order(current, queue)))
      ensures var r := old(reqs[current.id]);
              && r.dev < |devs| == |old(devs)| && (resetPending <==> old(resetPending) || ResetDue(r.retries))
              && devs == (if RecalibrationDue(r.retries)
                  then old(devs)[r.dev := old(devs)[r.dev].(recalibrate := true)] else old(devs))
      ensures var id, r := old(current).id, old(reqs[current.id]);
              if r.retries < MAX_RETRIES then
                reqs == old(reqs)[id := r.(retries := r.retries + 1)] && queue == [id] + old(queue) && log == old(log)
              else
                && reqs == old(reqs)[id := r.(completed := true, result := -1, retries := r.retries + 1)] && queue == old(queue)
                && log == old(log) + [Completion(id, r.(completed := true, result := -1, retries := r.retries + 1), disk)]
    {
      hide Sound, SameAs, Agree, LogOk, Work, Recalibrations, CompletionOk, DevOk, Total, Suffix, RecalibrationDue, ResetDue;
      ideIntr := NoHandler;
      var id := current.id;
      SuffixSelf(queue, id);
      SuffixSelf([id] + queue, id);
      CurrentFacts(reqs, submitted, queue, current, devs, disk, log);
      var retries := reqs[id].retries + 1;
      EveryFourth(reqs[id].retries);
      if reqs[id].retries < MAX_RETRIES {
        Retried(reqs, submitted, queue, current, devs, disk, log);
        WorkAfter(reqs, id, reqs[id].(retries := retries));
        reqs := reqs[id := reqs[id].(retries := retries)];
        queue := [id] + queue;
        current := Free;
        if retries % RESET_FREQ == 0 {
          resetPending := true;
        }
        if retries % RECAL_FREQ == 0 {
          FlagRecalibration(reqs[id].dev, true);
        }
      } else {
        resetPending := true;
        FlagRecalibration(reqs[id].dev, true);
        CurrentFacts(reqs, submitted, queue, current, devs, disk, log);
        GivenUp(reqs, submitted, queue, current, devs, disk, log);
        EndRequest(-1, retries);
      }
    }

    method FlagRecalibration(d: nat, on: bool)
      requires Holding(Free) && d < |devs|
      modifies this`devs
      ensures Holding(Free) && devs == old(devs)[d := old(devs)[d].(recalibrate := on)]
      ensures Left() <= old(Left()) + (if on then 1 else 0) - (if !on && old(devs)[d].recalibrate then 1 else 0)
    {
      hide LogOk;
      FlagsChanged(reqs, submitted, queue, current, Free, devs, disk, log, devs[d := devs[d].(recalibrate := on)], current);
      RecalibrationsOfTwo(devs);
      RecalibrationsOfTwo(devs[d := devs[d].(recalibrate := on)]);
      devs := devs[d := devs[d].(recalibrate := on)];
    }

    /** `recalibrate_drive`; selecting the drive is taken to succeed. */
    method RecalibrateDrive(d: nat)
      requires Holding(Free) && d < |devs| && devs[d].recalibrate && current == Free
      modifies this`devs, this`current, this`ideIntr, this`ctl, this`sent
      ensures Holding(Free) && Wired(reqs, queue, current, ideIntr, ctl) && Left() <= old(Left())
      ensures current == Fake && ideIntr == RecalIntr && ctl == Recalibrating(d) && sent == old(sent) + [Recalibrate(d)]
      ensures devs == old(devs)[d := old(devs)[d].(recalibrate := false)]
    {
      hide Sound;
      ideIntr := RecalIntr;
      FlagRecalibration(d, false);
      FlagsChanged(reqs, submitted, queue, current, Free, devs, disk, log, devs, Fake);
      current := Fake;
      ctl := Recalibrating(d);
      sent := sent + [Recalibrate(d)];
    }

    /** `reset_controller`, whose test of the outcome is for the messages only */
    method ResetController()
      modifies this`resetPending, this`ctl, this`sent
      ensures !resetPending && ctl == Quiet && sent == old(sent) + [Reset]
    {
      resetPending := false;
      ctl := Quiet;
      sent := sent + [Reset];
    }

    /** `do_request`, on `loose` or on the first request of the queue. */
    method DoRequest(loose: Current)
      requires Holding(loose) && loose != Fake && (loose.Real? ==> loose.id < |reqs|)
      requires current == Free ==> ideIntr == NoHandler && (loose.Real? ==> queue == [])
      requires current != Free ==> Wired(reqs, queue, current, ideIntr, ctl) && Clean(current, resetPending, devs)
      modifies this
      ensures Suffix(Order(current, queue), old(Order(current, queue)) + Order(loose, []))
      ensures old(current) != Free ==> unchanged(`current, `reqs, `ideIntr, `ctl, `devs, `sent, `log, `asked) && queue == old(queue) + Order(loose, [])
      ensures |old(devs)| == 2
      ensures old(current) == Free && (old(devs)[0].recalibrate || old(devs)[1].recalibrate) ==>
                var d := if old(devs)[0].recalibrate then 0 else 1;
                && current == Fake && ideIntr == RecalIntr && ctl == Recalibrating(d)
                && devs == old(devs)[d := old(devs)[d].(recalibrate := false)]
                && sent == old(sent) + Resets(old(resetPending)) + [Recalibrate(d)]
                && unchanged(`reqs, `log, `asked) && queue == old(queue) + Order(loose, [])
      ensures old(current) == Free && !old(devs)[0].recalibrate && !old(devs)[1].recalibrate ==>
                var waiting := old(queue) + Order(loose, []);
                if waiting == [] then unchanged(`current, `reqs, `queue, `devs, `log, `asked) && sent == old(sent) + Resets(old(resetPending))
                else
                  && waiting[0] < |old(reqs)|
                  && var r := old(reqs)[waiting[0]];
                  && (Impossible(r, old(devs), answer, old(asked)) ==>
                        Prefix(old(log) + [Completion(waiting[0], r.(completed := true, result := -1), disk)], log))
                  && (Taken(r, old(devs), answer, old(asked)) ==>
                        && current == Real(waiting[0]) && queue == waiting[1..] && unchanged(`reqs, `devs, `log)
                        && sent == old(sent) + Resets(old(resetPending)) + [Sectors(r.command == Write, r.dev, r.block, r.nblocks)])
                  && (!Impossible(r, old(devs), answer, old(asked)) && !Taken(r, old(devs), answer, old(asked)) ==>
                        Left() < old(Left()))
      ensures Valid() && submitted == old(submitted) && disk == old(disk) && Prefix(old(log), log)
      ensures Left() <= old(Left())
      decreases Work(reqs), 3
    {
      hide Sound, Work, Measure, Agree, SameAs, LogOk, Suffix, Prefix, Taken, Impossible, Total, DevOk, ReqOk, Wired;
      MeasureIsBound(reqs, submitted, queue, current, loose, devs, disk, log);
      DrivesAreTwo(reqs, submitted, queue, current, loose, devs, disk, log);
      if current != Free {
        SuffixSelf(Order(current, queue) + Order(loose, []), 0);
        PrefixSelf(log);
          OrderAppended(current, queue, Order(loose, []));
        StillWired(reqs, queue, Order(loose, []), current, ideIntr, ctl);
        Append(loose);
        return;
      }
      if resetPending {
        ResetController();
      }
      if devs[0].recalibrate || devs[1].recalibrate {
        RecalibrateFirst(loose, if devs[0].recalibrate then 0 else 1);
        return;
      }
      StartNext(loose);
    }

    /** ide.c:361-368 */
    method RecalibrateFirst(loose: Current, d: nat)
      requires Holding(loose) && loose != Fake && current == Free && d < |devs| && devs[d].recalibrate && !resetPending
      modifies this`queue, this`devs, this`current, this`ideIntr, this`ctl, this`sent
      ensures Valid() && Left() <= old(Left()) && Prefix(log, log)
      ensures Suffix(Order(current, queue), old(queue) + Order(loose, []))
      ensures current == Fake && ideIntr == RecalIntr && ctl == Recalibrating(d)
      ensures devs == old(devs)[d := old(devs)[d].(recalibrate := false)]
      ensures sent == old(sent) + [Recalibrate(d)] && queue == old(queue) + Order(loose, [])
    {
      hide Sound, Measure, Suffix, Prefix, Wired;
      SuffixSelf(queue + Order(loose, []), 0);
      PrefixSelf(log);
      Append(loose);
      RecalibrateDrive(d);
    }

    /** ide.c:371-447 */
    method StartNext(loose: Current)
      requires Holding(loose) && current == Free && loose != Fake && (loose.Real? ==> loose.id < |reqs| && queue == [])
      requires ideIntr == NoHandler && Clean(current, resetPending, devs)
      modifies this
      ensures Suffix(Order(current, queue), old(queue) + Order(loose, []))
      ensures Valid() && submitted == old(submitted) && disk == old(disk) && Prefix(old(log), log)
      ensures Left() <= old(Left())
      ensures var waiting := old(queue) + Order(loose, []);
              if waiting == [] then unchanged(this)
              else
                && waiting[0] < |old(reqs)|
                && var r := old(reqs)[waiting[0]];
                && (Impossible(r, old(devs), answer, old(asked)) ==>
                      Prefix(old(log) + [Completion(waiting[0], r.(completed := true, result := -1), disk)], log))
                && (Taken(r, old(devs), answer, old(asked)) ==>
                      && current == Real(waiting[0]) && queue == waiting[1..] && unchanged(`reqs, `devs, `log)
                      && sent == old(sent) + [Sectors(r.command == Write, r.dev, r.block, r.nblocks)])
                && (!Impossible(r, old(devs), answer, old(asked)) && !Taken(r, old(devs), answer, old(asked)) ==>
                      Left() < old(Left()))
      decreases Work(reqs), 2
    {
      hide Sound, Work, Measure, Agree, SameAs, LogOk, Suffix, Prefix, Taken, Impossible, Total, DevOk, ReqOk;
      MeasureIsBound(reqs, submitted, queue, current, loose, devs, disk, log);
      DrivesAreTwo(reqs, submitted, queue, current, loose, devs, disk, log);
      SuffixSelf(queue, 0);
      PrefixSelf(log);
      if loose == Free && queue == [] {
        return;
      }
      Start(loose);
      Issue();
    }

    method Append(loose: Current)
      requires Holding(loose) && loose != Fake
      modifies this`queue
      ensures Holding(Free) && queue == old(queue) + Order(loose, [])
    {
      hide Sound;
      if loose.Real? {
        Queued(reqs, submitted, queue, current, loose, devs, disk, log);
        queue := queue + [loose.id];
      }
      assert queue + [] == queue;
    }

    /** ide.c:371-384 */
    method Start(loose: Current)
      requires Holding(loose) && current == Free && loose != Fake && (if loose.Real? then queue == [] else queue != [])
      modifies this`queue, this`current
      ensures Holding(Free) && current.Real? && Order(current, queue) == old(queue) + Order(loose, []) && Left() == old(Left())
    {
      hide Sound, Measure;
      Started(reqs, submitted, queue, loose, devs, disk, log);
      SameMeasure(reqs, devs, current, if loose.Real? then loose else Real(queue[0]));
      if loose == Free {
        var id := queue[0];
        queue := queue[1..];
        current := Real(id);
      } else {
        current := loose;
      }
    }

    /** The current request is given to the controller (ide.c:387-447). */
    method Issue()
      requires Holding(Free) && current.Real? && ideIntr == NoHandler && Clean(current, resetPending, devs)
      modifies this
      ensures Valid() && submitted == old(submitted) && disk == old(disk) && Prefix(old(log), log)
      ensures Left() <= old(Left()) && Suffix(Order(current, queue), old(Order(current, queue)))
      ensures old(current).id < |old(reqs)|
      ensures var id, r := old(current).id, old(reqs[current.id]);
              && (Impossible(r, old(devs), answer, old(asked)) ==>
                    Prefix(old(log) + [Completion(id, r.(completed := true, result := -1), disk)], log))
              && (Taken(r, old(devs), answer, old(asked)) ==>
                    && unchanged(`current, `queue, `reqs, `devs, `log)
                    && sent == old(sent) + [Sectors(r.command == Write, r.dev, r.block, r.nblocks)])
              && (!Impossible(r, old(devs), answer, old(asked)) && !Taken(r, old(devs), answer, old(asked)) ==>
                    Left() < old(Left()))
              && (!Impossible(r, old(devs), answer, old(asked)) && !Taken(r, old(devs), answer, old(asked)) && RecalibrationDue(r.retries) ==>
                    && current == Fake && ideIntr == RecalIntr && ctl == Recalibrating(r.dev) && unchanged(`devs)
                    && sent == old(sent) + (if r.command == Write && answer(old(asked)) then [Sectors(true, r.dev, r.block, r.nblocks)] else [])
                               + Resets(ResetDue(r.retries)) + [Recalibrate(r.dev)])
      decreases Work(reqs), 1
    {
      hide Sound, Work, Measure, Agree, SameAs, LogOk, Suffix, Prefix, Order, Total, DevOk, ReqOk;
      SuffixSelf(Order(current, queue), 0);
      PrefixSelf(log);
      CurrentFacts(reqs, submitted, queue, current, devs, disk, log);
      MeasureIsBound(reqs, submitted, queue, current, Free, devs, disk, log);
      var req := reqs[current.id];
      var dev := devs[req.dev];
      if req.block >= Total(dev) {
        Refuse();
        return;
      }
      var selected := Ready();
      if !selected {
        Fail();
        return;
      }
      if req.command == Other {
        Refuse();
        return;
      }
      GiveCommand();
      if req.command == Write {
        var dataRequested := Ready();
        if !dataRequested {
          Fail();
          return;
        }
        ctl := ctl.(out := req.data[req.done]);
      }
    }

    /** The registers and the command of a transfer (ide.c:398-424). */
    method GiveCommand()
      requires Holding(Free) && current.Real? && reqs[current.id].command != Other
      requires reqs[current.id].dev < |devs| && reqs[current.id].block < Total(devs[reqs[current.id].dev])
      modifies this`ideIntr, this`ctl, this`sent
      ensures var r := reqs[current.id];
              && ideIntr == (if r.command == Read then ReadIntr else WriteIntr)
              && ctl == Transfer(r.command == Write, r.dev, r.block, r.nblocks, 0)
              && sent == old(sent) + [Sectors(r.command == Write, r.dev, r.block, r.nblocks)]
    {
      hide Sound, Agree, SameAs, LogOk, Lba, Total;
      CurrentFacts(reqs, submitted, queue, current, devs, disk, log);
      var req := reqs[current.id];
      var dev := devs[req.dev];
      AddressRoundTrip(dev, req.block);
      CountFits(req.nblocks);
      var track := req.block / dev.sectors;
      var sect := req.block % dev.sectors + 1;
      var head := track % dev.heads;
      var cyl := track / dev.heads;
      var block: int := Lba(dev, cyl % 256, cyl / 256 % 256, head, sect % 256);
      ideIntr := if req.command == Read then ReadIntr else WriteIntr;
      ctl := Transfer(req.command == Write, req.dev, block, SectorCount(req.nblocks), 0);
      sent := sent + [Sectors(req.command == Write, req.dev, block, SectorCount(req.nblocks))];
    }

    /** `end_request(-1)` for a request that cannot be executed, then the next one. */
    method Refuse()
      requires Holding(Free) && current.Real? && ideIntr == NoHandler
      requires reqs[current.id].command == Other || reqs[current.id].dev >= |devs| || reqs[current.id].block >= Total(devs[reqs[current.id].dev])
      modifies this
      ensures Valid() && submitted == old(submitted) && disk == old(disk) && Prefix(old(log), log)
      ensures Left() <= old(Left()) && Suffix(Order(current, queue), old(Order(current, queue)))
      ensures Prefix(old(log) + [Completion(old(current).id, old(reqs[current.id]).(completed := true, result := -1), disk)], log)
      decreases Work(reqs), 0
    {
      hide Suffix, Order, Sound, Work, Measure, Agree, LogOk;
      MeasureIsBound(reqs, submitted, queue, current, Free, devs, disk, log);
      Refused(reqs, submitted, queue, current, devs, disk, log);
      EndRequest(-1, reqs[current.id].retries);
      MeasureIsBound(reqs, submitted, queue, current, Free, devs, disk, log);
      ghost var l1, o1 := log, Order(current, queue);
      NothingMore(o1);
      DoRequest(Free);
      SuffixTwice(Order(current, queue), o1, old(Order(current, queue)));
      PrefixTwice(old(log), l1, log);
    }

    /** `handle_error`, then `do_request(NULL)`: after every fourth failure at a sector, and after the last, the drive
        is recalibrated before anything else; after the others the controller is given the same request at once. */
    method Fail()
      requires Holding(Free) && current.Real? && Clean(current, resetPending, devs)
      modifies this
      ensures Valid() && submitted == old(submitted) && disk == old(disk) && Prefix(old(log), log)
      ensures Left() < old(Left()) && Suffix(Order(current, queue), old(Order(current, queue)))
      ensures old(current).id < |old(reqs)| && old(reqs[current.id]).retries <= 16
      ensures var id, r := old(current).id, old(reqs[current.id]);
              if RecalibrationDue(r.retries) then
                && current == Fake && ideIntr == RecalIntr && ctl == Recalibrating(r.dev) && unchanged(`devs, `asked)
                && sent == old(sent) + Resets(ResetDue(r.retries)) + [Recalibrate(r.dev)]
                && (r.retries < 16 ==> reqs == old(reqs)[id := r.(retries := r.retries + 1)] && queue == [id] + old(queue) && log == old(log))
                && (r.retries == 16 ==>
                      && reqs == old(reqs)[id := r.(completed := true, result := -1, retries := 17)] && queue == old(queue)
                      && log == old(log) + [Completion(id, r.(completed := true, result := -1, retries := 17), disk)])
              else Taken(r, old(devs), answer, old(asked)) ==>
                && current == Real(id) && unchanged(`devs, `queue, `log) && reqs == old(reqs)[id := r.(retries := r.retries + 1)]
                && sent == old(sent) + [Sectors(r.command == Write, r.dev, r.block, r.nblocks)]
      decreases Work(reqs), 0
    {
      hide Suffix, Order, Sound, Work, Measure, Taken, Impossible, Prefix, ReqOk, SameAs, Agree, DevOk, Total, Wired, Clean, RecalibrationDue, ResetDue;
      MeasureIsBound(reqs, submitted, queue, current, Free, devs, disk, log);
      CurrentFacts(reqs, submitted, queue, current, devs, disk, log);
      NoFlags(current, devs, resetPending);
      ghost var id, d := current.id, reqs[current.id].dev;
      TakenAgain(reqs[id], devs, answer, asked, reqs[id].retries + 1);
      EveryFourth(reqs[id].retries);
      OneFlag(devs, d);
      FrontAgain(id, queue);
      NothingMore(queue);
      HandleError();
      MeasureIsBound(reqs, submitted, queue, current, Free, devs, disk, log);
      ghost var l1, o1 := log, Order(current, queue);
      NothingMore(o1);
      DoRequest(Free);
      SuffixTwice(Order(current, queue), o1, old(Order(current, queue)));
      PrefixTwice(old(log), l1, log);
    }

    // ----- Interrupts -----

    /** `ide_int_handler`: an interrupt that somebody waits for brings the end nearer; any other is ignored. */
    method Interrupt() returns (ghost failed: bool)
      requires Valid()
      modifies this
      ensures Valid() && submitted == old(submitted) && Prefix(old(log), log)
      ensures if old(ideIntr) == NoHandler then unchanged(this) else Left() < old(Left())
      ensures Suffix(Order(current, queue), old(Order(current, queue)))
      ensures SameShape(old(disk), disk)
      ensures old(current).Real? && old(reqs[current.id].command) == Write ==>
                forall d, b :: 0 <= d < |disk| && 0 <= b < |disk[d]| && !(d == old(reqs[current.id].dev) && b == old(reqs[current.id].block)) ==> disk[d][b] == old(disk)[d][b]
      ensures !(old(current).Real? && old(reqs[current.id].command) == Write) ==> disk == old(disk)
      ensures old(current).Real? ==> old(current).id < |old(reqs)| && old(reqs[current.id]).dev < |disk|
      ensures failed <==> old(current).Real? && (!answer(old(asked)) || old(reqs[current.id]).block >= |disk[old(reqs[current.id]).dev]|)
      ensures failed && RecalibrationDue(old(reqs[current.id]).retries) ==>
                current == Fake && ctl == Recalibrating(old(reqs[current.id]).dev) && devs == old(devs)
    {
      hide Suffix, Order, Sound, Measure;
      SuffixSelf(Order(current, queue), 0);
      var func := ideIntr;
      failed := false;
      if func == NoHandler {
        return;
      }
      ideIntr := NoHandler;
      match func
      case ReadIntr => failed := DoReadIntr();
      case WriteIntr => failed := DoWriteIntr();
      case RecalIntr => DoRecalIntr();
    }

    /** `recal_intr` */
    method DoRecalIntr()
      requires Holding(Free) && current == Fake && ideIntr == NoHandler && !resetPending
      modifies this
      ensures Valid() && submitted == old(submitted) && disk == old(disk) && Prefix(old(log), log) && Left() < old(Left())
      ensures Suffix(Order(current, queue), old(Order(current, queue)))
      ensures |old(devs)| == 2
      ensures old(devs)[0].recalibrate || old(devs)[1].recalibrate ==>
                current == Fake && ctl == Recalibrating(if old(devs)[0].recalibrate then 0 else 1) && unchanged(`queue, `reqs, `log)
      ensures !old(devs)[0].recalibrate && !old(devs)[1].recalibrate ==>
                if old(queue) == [] then current == Free && unchanged(`sent)
                else
                  && old(queue)[0] < |old(reqs)|
                  && var r := old(reqs)[old(queue)[0]];
                  Taken(r, old(devs), answer, old(asked)) ==>
                    && current == Real(old(queue)[0]) && queue == old(queue)[1..] && unchanged(`reqs, `log)
                    && sent == old(sent) + [Sectors(r.command == Write, r.dev, r.block, r.nblocks)]
    {
      hide Suffix, Sound, Work, Recalibrations, Taken, Impossible, Prefix, Total, ReqOk;
      FlagsChanged(reqs, submitted, queue, current, Free, devs, disk, log, devs, Free);
      current := Free;
      NothingMore(queue);
      DrivesAreTwo(reqs, submitted, queue, current, Free, devs, disk, log);
      assert sent + Resets(false) == sent;
      DoRequest(Free);
    }

    /** `read_intr` */
    method DoReadIntr() returns (ghost failed: bool)
      requires Holding(Free) && current.Real? && ideIntr == NoHandler && Wired(reqs, queue, current, ReadIntr, ctl) && Clean(current, resetPending, devs)
      modifies this
      ensures Valid() && submitted == old(submitted) && disk == old(disk) && Prefix(old(log), log) && Left() < old(Left())
      ensures Suffix(Order(current, queue), old(Order(current, queue)))
      ensures old(current).id < |old(reqs)| && old(reqs[current.id]).dev < |disk| && old(reqs[current.id]).done < old(|reqs[current.id].data|)
      ensures failed <==> !answer(old(asked)) || old(reqs[current.id]).block >= |disk[old(reqs[current.id]).dev]|
      ensures failed && RecalibrationDue(old(reqs[current.id]).retries) ==>
                current == Fake && ctl == Recalibrating(old(reqs[current.id]).dev) && devs == old(devs)
      ensures !failed ==>
                var r := old(reqs[current.id]);
                var data := r.data[r.done := disk[r.dev][r.block]];
                if r.nblocks > 1 then
                  && reqs == old(reqs)[old(current).id := r.(data := data, block := r.block + 1, nblocks := r.nblocks - 1, done := r.done + 1, retries := 0)]
                  && unchanged(`current, `queue, `devs, `sent, `log)
                else Prefix(old(log) + [Completion(old(current).id, r.(data := data, completed := true, result := 0), disk)], log)
    {
      hide Suffix, Order, Sound, Measure, Work, Agree, SameAs, Taken, Impossible, Prefix, DevOk, Total;
      PrefixSelf(log);
      SuffixSelf(Order(current, queue), 0);
      CurrentFacts(reqs, submitted, queue, current, devs, disk, log);
      var id := current.id;
      var req := reqs[id];
      var ready := Ready();
      failed := !ready || ctl.next >= |disk[ctl.dev]|;
      if !ready || ctl.next >= |disk[ctl.dev]| {
        Fail();
        return;
      }
      var sector := disk[ctl.dev][ctl.next];
      ctl := ctl.(next := ctl.next + 1, left := ctl.left - 1);
      Received(req, submitted[id], devs, disk);
      req := req.(data := req.data[req.done := sector]);
      CurrentChanged(reqs, submitted, queue, current, Free, devs, disk, log, req, disk);
      SameWork(reqs, devs, current, id, req);
      reqs := reqs[id := req];
      if req.nblocks > 1 {
        Advance();
        ideIntr := ReadIntr;
      } else {
        Finish();
      }
    }

    /** `write_intr`; after an error the sector may hold anything. */
    method DoWriteIntr() returns (ghost failed: bool)
      requires Holding(Free) && current.Real? && ideIntr == NoHandler && Wired(reqs, queue, current, WriteIntr, ctl) && Clean(current, resetPending, devs)
      modifies this
      ensures Valid() && submitted == old(submitted) && Prefix(old(log), log) && Left() < old(Left())
      ensures Suffix(Order(current, queue), old(Order(current, queue)))
      ensures SameShape(old(disk), disk)
      ensures old(current).id < |old(reqs)| && old(reqs[current.id]).dev < |disk| && 0 <= old(reqs[current.id]).done < old(|reqs[current.id].data|)
      ensures failed <==> !answer(old(asked)) || old(reqs[current.id]).block >= |disk[old(reqs[current.id]).dev]|
      ensures failed && RecalibrationDue(old(reqs[current.id]).retries) ==>
                current == Fake && ctl == Recalibrating(old(reqs[current.id]).dev) && devs == old(devs)
      ensures !failed ==>
                var r := old(reqs[current.id]);
                var next := r.(block := r.block + 1, nblocks := r.nblocks - 1, done := r.done + 1, retries := 0);
                && disk[r.dev][r.block] == r.data[r.done]
                && (if r.nblocks > 1 then
                      answer(old(asked) + 1) ==> reqs == old(reqs)[old(current).id := next] && unchanged(`current, `queue, `devs, `sent, `log)
                    else Prefix(old(log) + [Completion(old(current).id, r.(completed := true, result := 0), disk)], log))
      ensures forall d, b :: 0 <= d < |disk| && 0 <= b < |disk[d]| && !(d == old(reqs[current.id].dev) && b == old(reqs[current.id].block)) ==> disk[d][b] == old(disk)[d][b]
    {
      hide Suffix, Order, Sound, Measure, Work, Agree, SameAs, Taken, Impossible, Prefix, DevOk, Total;
      PrefixSelf(log);
      SuffixSelf(Order(current, queue), 0);
      CurrentFacts(reqs, submitted, queue, current, devs, disk, log);
      var id := current.id;
      var req := reqs[id];
      var done := Ready();
      failed := !done || ctl.next >= |disk[ctl.dev]|;
      if ctl.next >= |disk[ctl.dev]| {
        Fail();
        return;
      }
      var left: Sector := *;
      var written := if done then ctl.out else left;
      Stored(req, devs, disk, written);
      var disk' := disk[ctl.dev := disk[ctl.dev][ctl.next := written]];
      CurrentChanged(reqs, submitted, queue, current, Free, devs, disk, log, req, disk');
      assert reqs[id := req] == reqs;
      disk := disk';
      if !done {
        Fail();
        return;
      }
      ctl := ctl.(next := ctl.next + 1, left := ctl.left - 1);
      PutOutNext();
    }

    /** ide.c:212-231 */
    method PutOutNext()
      requires Holding(Free) && current.Real? && ideIntr == NoHandler && Clean(current, resetPending, devs)
      requires current.id < |reqs| && reqs[current.id].command == Write && 0 <= reqs[current.id].done
      requires Agree(reqs[current.id], disk, reqs[current.id].done + 1)
      requires ctl.Transfer? && ctl.write && ctl.dev == reqs[current.id].dev && ctl.next == reqs[current.id].block + 1 && ctl.left == reqs[current.id].nblocks - 1
      modifies this
      ensures Valid() && submitted == old(submitted) && disk == old(disk) && Prefix(old(log), log) && Left() < old(Left())
      ensures Suffix(Order(current, queue), old(Order(current, queue)))
      ensures var r := old(reqs[current.id]);
              var next := r.(block := r.block + 1, nblocks := r.nblocks - 1, done := r.done + 1, retries := 0);
              if r.nblocks > 1 then
                answer(old(asked)) ==> reqs == old(reqs)[old(current).id := next] && unchanged(`current, `queue, `devs, `sent, `log)
              else Prefix(old(log) + [Completion(old(current).id, r.(completed := true, result := 0), disk)], log)
    {
      hide Suffix, Order, Sound, Measure, Work, Agree, SameAs, Taken, Impossible, Prefix, DevOk, Total;
      PrefixSelf(log);
      SuffixSelf(Order(current, queue), 0);
      CurrentFacts(reqs, submitted, queue, current, devs, disk, log);
      var id := current.id;
      if reqs[id].nblocks > 1 {
        Advance();
        var dataRequested := Ready();
        if dataRequested {
          CurrentFacts(reqs, submitted, queue, current, devs, disk, log);
          ctl := ctl.(out := reqs[id].data[reqs[id].done]);
          ideIntr := WriteIntr;
        } else {
          Fail();
        }
      } else {
        Finish();
      }
    }

    /** The request moves on to its next sector (ide.c:182-185, ide.c:214-217). */
    method Advance()
      requires Holding(Free) && current.Real? && reqs[current.id].nblocks > 1 && Agree(reqs[current.id], disk, reqs[current.id].done + 1)
      modifies this`reqs
      ensures Holding(Free) && Left() < old(Left())
      ensures var r := old(reqs[current.id]);
              reqs == old(reqs)[current.id := r.(block := r.block + 1, nblocks := r.nblocks - 1, done := r.done + 1, retries := 0)]
    {
      hide Sound, Agree, LogOk, Work, Recalibrations;
      CurrentFacts(reqs, submitted, queue, current, devs, disk, log);
      var id := current.id;
      var r := reqs[id];
      var next := r.(block := r.block + 1, nblocks := r.nblocks - 1, done := r.done + 1, retries := 0);
      SameData(r, next, disk, r.done + 1);
      CurrentChanged(reqs, submitted, queue, current, Free, devs, disk, log, next, disk);
      WorkAfter(reqs, id, next);
      reqs := reqs[id := next];
    }

    /** The last sector is through: `end_request(0)`, then the next request. */
    method Finish()
      requires Holding(Free) && current.Real? && ideIntr == NoHandler
      requires reqs[current.id].nblocks == 1 && Agree(reqs[current.id], disk, reqs[current.id].done + 1)
      modifies this
      ensures Valid() && submitted == old(submitted) && disk == old(disk) && Prefix(old(log), log) && Left() < old(Left())
      ensures Suffix(Order(current, queue), old(Order(current, queue)))
      ensures Prefix(old(log) + [Completion(old(current).id, old(reqs[current.id]).(completed := true, result := 0), disk)], log)
    {
      hide Suffix, Order, Sound, Measure, Work, Agree;
      CurrentFacts(reqs, submitted, queue, current, devs, disk, log);
      ghost var r := reqs[current.id];
      SameData(r, r.(completed := true, result := 0), disk, r.count);
      StillSame(r, r.(completed := true, result := 0), submitted[current.id], disk);
      EndRequest(0, reqs[current.id].retries);
      ghost var l1, o1 := log, Order(current, queue);
      NothingMore(o1);
      DoRequest(Free);
      SuffixTwice(Order(current, queue), o1, old(Order(current, queue)));
      PrefixTwice(old(log), l1, log);
    }

    /** `sync_request` up to the wait, for the numbers of blocks that the controller's register can hold. */
    method Submit(dev: nat, block: nat, count: nat, command: Command, data: seq<Sector>) returns (id: nat)
      requires Valid() && dev < 2 && 1 <= count <= 256 && |data| == count
      modifies this
      ensures Valid() && disk == old(disk) && Prefix(old(log), log)
      ensures id == |old(submitted)| && submitted == old(submitted) + [Req(dev, block, count, command, data, block, count, 0, 0, false, 0)]
      ensures Suffix(Order(current, queue), old(Order(current, queue)) + [id])
      ensures old(current) == Free && Taken(submitted[id], old(devs), answer, old(asked)) ==>
                current == Real(id) && queue == [] && unchanged(`devs, `log) && sent == old(sent) + [Sectors(command == Write, dev, block, count)]
      ensures old(current) != Free ==> unchanged(`current, `devs, `log, `sent) && queue == old(queue) + [id]
    {
      hide Sound, Measure, Work, Agree, Suffix, Taken, Impossible, Prefix, Total;
      var req := Req(dev, block, count, command, data, block, count, 0, 0, false, 0);
      Requests(reqs, submitted, queue, current, devs, disk, log);
      Submitted(reqs, submitted, queue, current, devs, disk, log, req);
      id := |reqs|;
      reqs := reqs + [req];
      submitted := submitted + [req];
      assert Order(Real(id), []) == [id];
      DoRequest(Real(id));
    }
  }

  // ----- Facts for the driver -----

  lemma NothingMore(s: seq<nat>)
    ensures s + Order(Free, []) == s
  {
    assert s + [] == s;
  }

  lemma FrontAgain(id: nat, queue: seq<nat>)
    ensures var waiting := ([id] + queue) + Order(Free, []);
            waiting == [id] + queue && waiting != [] && waiting[0] == id && waiting[1..] == queue
  {
    NothingMore([id] + queue);
  }

  lemma OrderAppended(current: Current, queue: seq<nat>, more: seq<nat>)
    ensures Order(current, queue + more) == Order(current, queue) + more
  {
    assert current.Real? ==> [current.id] + (queue + more) == ([current.id] + queue) + more;
  }

  lemma Requests(reqs: seq<Req>, submitted: seq<Req>, queue: seq<nat>, current: Current,
                 devs: seq<Dev>, disk: seq<seq<Sector>>, log: seq<Completion>)
    requires Sound(reqs, submitted, queue, current, Free, devs, disk, log)
    ensures |reqs| == |submitted| && |devs| == |disk| == 2
  {
  }

  /** The sector just read is the next of the request. */
  lemma Received(r: Req, submitted: Req, devs: seq<Dev>, disk: seq<seq<Sector>>)
    requires ReqOk(r, devs, disk) && !r.completed && SameAs(r, submitted) && r.command == Read && r.block < |disk[r.dev]|
    ensures var r1 := r.(data := r.data[r.done := disk[r.dev][r.block]]);
            ReqOk(r1, devs, disk) && SameAs(r1, submitted) && Agree(r1, disk, r1.done + 1)
  {
  }

  /** The finished part of a request is not touched by what happens to its next sector. */
  lemma Stored(r: Req, devs: seq<Dev>, disk: seq<seq<Sector>>, written: Sector)
    requires ReqOk(r, devs, disk) && !r.completed && r.block < |disk[r.dev]|
    ensures var disk' := disk[r.dev := disk[r.dev][r.block := written]];
            && SameShape(disk, disk') && ReqOk(r, devs, disk')
            && (written == r.data[r.done] ==> Agree(r, disk', r.done + 1))
  {
  }

  lemma SameData(r0: Req, r1: Req, disk: seq<seq<Sector>>, n: nat)
    requires Agree(r0, disk, n) && r1.dev == r0.dev && r1.data == r0.data && r1.first == r0.first
    ensures Agree(r1, disk, n)
  {
  }

  lemma SameWork(reqs: seq<Req>, devs: seq<Dev>, current: Current, id: nat, r: Req)
    requires id < |reqs| && WorkOf(r) == WorkOf(reqs[id])
    ensures Measure(reqs[id := r], devs, current) == Measure(reqs, devs, current)
  {
    WorkAfter(reqs, id, r);
  }

  lemma CurrentFacts(reqs: seq<Req>, submitted: seq<Req>, queue: seq<nat>, current: Current,
                     devs: seq<Dev>, disk: seq<seq<Sector>>, log: seq<Completion>)
    requires Sound(reqs, submitted, queue, current, Free, devs, disk, log) && current.Real?
    ensures current.id < |reqs| == |submitted| && ReqOk(reqs[current.id], devs, disk) && !reqs[current.id].completed
    ensures SameAs(reqs[current.id], submitted[current.id]) && |devs| == |disk| == 2
    ensures reqs[current.id].dev < 2 && DevOk(devs[reqs[current.id].dev]) && |disk[reqs[current.id].dev]| == Total(devs[reqs[current.id].dev])
  {
    assert HomeOf(reqs, queue, current, Free, current.id);
  }

  lemma StillWired(reqs: seq<Req>, queue: seq<nat>, more: seq<nat>, current: Current, ideIntr: Handler, ctl: Controller)
    requires Wired(reqs, queue, current, ideIntr, ctl) && current != Free
    ensures Wired(reqs, queue + more, current, ideIntr, ctl)
  {
  }

  lemma DrivesAreTwo(reqs: seq<Req>, submitted: seq<Req>, queue: seq<nat>, current: Current, loose: Current,
                     devs: seq<Dev>, disk: seq<seq<Sector>>, log: seq<Completion>)
    requires Sound(reqs, submitted, queue, current, loose, devs, disk, log)
    ensures |devs| == 2 && (current.Real? ==> current.id < |reqs|)
  {
  }

  lemma CurrentHasWork(reqs: seq<Req>, submitted: seq<Req>, queue: seq<nat>, current: Current,
                       devs: seq<Dev>, disk: seq<seq<Sector>>, log: seq<Completion>)
    requires Sound(reqs, submitted, queue, current, Free, devs, disk, log) && current.Real?
    ensures current.id < |reqs| && WorkOf(reqs[current.id]) > 0
  {
    CurrentFacts(reqs, submitted, queue, current, devs, disk, log);
  }

  lemma GivenUp(reqs: seq<Req>, submitted: seq<Req>, queue: seq<nat>, current: Current,
                devs: seq<Dev>, disk: seq<seq<Sector>>, log: seq<Completion>)
    requires Sound(reqs, submitted, queue, current, Free, devs, disk, log) && current.Real? && reqs[current.id].retries >= MAX_RETRIES
    ensures CompletionOk(Completion(current.id, reqs[current.id].(completed := true, result := -1, retries := reqs[current.id].retries + 1), disk), submitted, devs)
  {
    CurrentFacts(reqs, submitted, queue, current, devs, disk, log);
  }

  lemma Refused(reqs: seq<Req>, submitted: seq<Req>, queue: seq<nat>, current: Current,
                devs: seq<Dev>, disk: seq<seq<Sector>>, log: seq<Completion>)
    requires Sound(reqs, submitted, queue, current, Free, devs, disk, log) && current.Real?
    requires reqs[current.id].command == Other || reqs[current.id].dev >= |devs| || reqs[current.id].block >= Total(devs[reqs[current.id].dev])
    ensures current.id < |reqs|
    ensures CompletionOk(Completion(current.id, reqs[current.id].(completed := true, result := -1), disk), submitted, devs)
  {
    CurrentFacts(reqs, submitted, queue, current, devs, disk, log);
  }

  lemma SameMeasure(reqs: seq<Req>, devs: seq<Dev>, c0: Current, c1: Current)
    requires c0 != Fake && c1 != Fake
    ensures Measure(reqs, devs, c0) == Measure(reqs, devs, c1)
  {
  }
}

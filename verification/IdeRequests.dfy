/** What is true of the requests to the IDE driver (ide.c, blkdev.h) between its steps. */
module IdeRequests {
  import opened Sequences

  const MAX_RETRIES := 16
  const RESET_FREQ := 8
  const RECAL_FREQ := 4

  /** The contents of a sector. */
  type Sector = int

  datatype Command = Read | Write | Other

  /** A request; `first` and `count` are as submitted, the rest as the driver updates it, `done` being how far the
      buffer pointer has moved in sectors. */
  datatype Req = Req(dev: nat, first: nat, count: nat, command: Command, data: seq<Sector>,
                     block: nat, nblocks: nat, done: nat, retries: nat, completed: bool, result: int)

  datatype Dev = Dev(heads: nat, sectors: nat, cylinders: nat, recalibrate: bool)

  datatype Current = Free | Fake | Real(id: nat)

  /** A request as it was when it completed, and the contents of the disks then. */
  datatype Completion = Completion(id: nat, req: Req, disk: seq<seq<Sector>>)

  function Total(d: Dev): nat {
    d.heads * d.sectors * d.cylinders
  }

  // ----- Addresses -----

  /** Geometries that the controller's registers can hold. */
  predicate DevOk(d: Dev) {
    1 <= d.heads <= 16 && 1 <= d.sectors <= 255 && d.cylinders <= 65536
  }

  /** The sector that the controller takes its registers to name. */
  function Lba(d: Dev, lowCyl: nat, highCyl: nat, head: nat, sect: nat): int {
    ((highCyl * 256 + lowCyl) * d.heads + head) * d.sectors + sect - 1
  }

  /** ide.c:398-413: the registers, eight bits each and four for the head, name the block that was asked for. */
  lemma AddressRoundTrip(d: Dev, block: nat)
    requires DevOk(d) && block < Total(d)
    ensures var track, sect := block / d.sectors, block % d.sectors + 1;
            var head, cyl := track % d.heads, track / d.heads;
            && head < 16 && Lba(d, cyl % 256, cyl / 256 % 256, head, sect % 256) == block
  {
    hide Lba, Total;
    var track, s := DivideBy(block, d.sectors);
    var cyl, head := DivideBy(track, d.heads);
    InRange(d, block, track, cyl, s, head);
    Digits(cyl);
    SmallModulus(s + 1);
    Composed(d, cyl % 256, cyl / 256 % 256, head, s + 1, cyl, track, block);
  }

  lemma DivideBy(a: nat, b: nat) returns (q: nat, r: nat)
    requires b > 0
    ensures q == a / b && r == a % b && a == q * b + r && r < b
  {
    q, r := a / b, a % b;
  }

  lemma SmallModulus(n: nat)
    requires n < 256
    ensures n % 256 == n
  {
  }

  lemma InRange(d: Dev, block: nat, track: nat, cyl: nat, s: nat, head: nat)
    requires DevOk(d) && block < Total(d) && block == track * d.sectors + s && track == cyl * d.heads + head
    ensures cyl < 65536
  {
    if d.cylinders <= cyl {
      ProductsGrow(d.heads, d.cylinders, cyl);
      ProductsGrow(d.sectors, d.cylinders * d.heads, track);
      SameProduct(d.heads, d.sectors, d.cylinders);
    }
  }

  lemma SameProduct(a: nat, b: nat, c: nat)
    ensures a * b * c == b * (c * a)
  {
  }

  lemma Digits(n: nat)
    requires n < 65536
    ensures n / 256 % 256 * 256 + n % 256 == n
  {
  }

  lemma Composed(d: Dev, lowCyl: nat, highCyl: nat, head: nat, sect: nat, cyl: nat, track: nat, block: nat)
    requires highCyl * 256 + lowCyl == cyl && cyl * d.heads + head == track && track * d.sectors + sect - 1 == block
    ensures Lba(d, lowCyl, highCyl, head, sect) == block
  {
  }

  lemma ProductsGrow(b: nat, c: nat, q: nat)
    requires c <= q
    ensures b * c <= b * q
  {
  }

  /** The number of sectors that the controller transfers for the eight-bit register. */
  function SectorCount(n: nat): nat {
    if n % 256 == 0 then 256 else n % 256
  }

  /** The interrupts that the handlers take for a request of `n` sectors: they look at the number after each
      (ide.c:178-192). */
  function Interrupts(n: nat): nat {
    if n > 1 then 1 + Interrupts(n - 1) else 1
  }

  lemma {:induction false} InterruptsAre(n: nat)
    ensures Interrupts(n) == if n == 0 then 1 else n
  {
    if n > 1 { InterruptsAre(n - 1); }
  }

  /** Driver and controller agree on the number of sectors exactly from 1 to 256. A request of none is over after the
      first of 256 sectors, one of more waits for sectors that do not come. */
  lemma CountFits(n: nat)
    ensures Interrupts(n) == SectorCount(n) <==> 1 <= n <= 256
    ensures n == 0 ==> SectorCount(n) == Interrupts(n) + 255
    ensures n > 256 ==> SectorCount(n) < Interrupts(n)
  {
    InterruptsAre(n);
  }

  // ----- The invariant -----

  /** How far the request has got; the finished part of the buffer agrees with the disk. */
  ghost predicate ReqOk(r: Req, devs: seq<Dev>, disk: seq<seq<Sector>>) {
    && r.dev < |devs| == |disk| && 1 <= r.count <= 256 && |r.data| == r.count
    && 1 <= r.nblocks && r.done + r.nblocks == r.count && r.block == r.first + r.done
    && (!r.completed ==> r.retries <= MAX_RETRIES && (r.done > 0 ==> Agree(r, disk, r.done)))
  }

  ghost predicate Agree(r: Req, disk: seq<seq<Sector>>, n: nat) {
    && r.dev < |disk| && n <= |r.data| && r.first + n <= |disk[r.dev]|
    && forall i :: 0 <= i < n ==> r.data[i] == disk[r.dev][r.first + i]
  }

  ghost predicate SameAs(r: Req, submitted: Req) {
    && r.dev == submitted.dev && r.first == submitted.first && r.count == submitted.count && r.command == submitted.command
    && (r.command != Read ==> r.data == submitted.data)
  }

  /** Every request that is not completed is in exactly one place: current, queued, or `loose` in the hands of `do_request`. */
  ghost predicate HomeOf(reqs: seq<Req>, queue: seq<nat>, current: Current, loose: Current, id: nat)
    requires id < |reqs|
  {
    && (id in queue ==> !reqs[id].completed && current != Real(id) && loose != Real(id))
    && (current == Real(id) ==> !reqs[id].completed && loose != Real(id))
    && (loose == Real(id) ==> !reqs[id].completed)
    && (!reqs[id].completed ==> id in queue || current == Real(id) || loose == Real(id))
    && (!reqs[id].completed && reqs[id].done > 0 ==>
          current == Real(id) || (!current.Real? && queue != [] && queue[0] == id))
  }

  ghost predicate CompletionOk(c: Completion, submitted: seq<Req>, devs: seq<Dev>) {
    && c.id < |submitted| && c.req.completed && SameAs(c.req, submitted[c.id])
    && (c.req.result == 0 || c.req.result == -1)
    && (c.req.result == 0 ==> c.req.retries <= MAX_RETRIES && Agree(c.req, c.disk, c.req.count))
    && (c.req.result == -1 ==> c.req.command == Other || c.req.dev >= |devs| || c.req.block >= Total(devs[c.req.dev])
                               || c.req.retries == MAX_RETRIES + 1)
  }

  ghost predicate LogOk(reqs: seq<Req>, submitted: seq<Req>, devs: seq<Dev>, log: seq<Completion>) {
    && (forall n :: 0 <= n < |log| ==> CompletionOk(log[n], submitted, devs) && log[n].id < |reqs| && reqs[log[n].id] == log[n].req)
    && (forall m, n :: 0 <= m < n < |log| ==> log[m].id != log[n].id)
    && (forall id: nat :: id < |reqs| && reqs[id].completed ==> exists n :: 0 <= n < |log| && log[n].id == id)
  }

  ghost predicate DrivesOk(devs: seq<Dev>, disk: seq<seq<Sector>>) {
    && |devs| == |disk| == 2
    && forall d :: 0 <= d < 2 ==> DevOk(devs[d]) && |disk[d]| == Total(devs[d])
  }

  ghost predicate Sound(reqs: seq<Req>, submitted: seq<Req>, queue: seq<nat>, current: Current, loose: Current,
                        devs: seq<Dev>, disk: seq<seq<Sector>>, log: seq<Completion>) {
    && DrivesOk(devs, disk)
    && |reqs| == |submitted|
    && (forall id: nat :: id < |reqs| ==> ReqOk(reqs[id], devs, disk) && SameAs(reqs[id], submitted[id]) && HomeOf(reqs, queue, current, loose, id))
    && Distinct(queue) && (forall id :: id in queue ==> id < |reqs|)
    && (current.Real? ==> current.id < |reqs|) && (loose.Real? ==> loose.id < |reqs|)
    && LogOk(reqs, submitted, devs, log)
  }

  // ----- Work left -----

  /** No more than so many attempts at sectors can still be made for the request. */
  function WorkOf(r: Req): int {
    if r.completed then 0 else (MAX_RETRIES + 1) * r.nblocks - r.retries
  }

  function Work(reqs: seq<Req>): int {
    if reqs == [] then 0 else WorkOf(reqs[0]) + Work(reqs[1..])
  }

  lemma {:induction false} WorkAfter(reqs: seq<Req>, id: nat, r: Req)
    requires id < |reqs|
    ensures Work(reqs[id := r]) == Work(reqs) - WorkOf(reqs[id]) + WorkOf(r)
  {
    if id == 0 {
      assert reqs[id := r][1..] == reqs[1..];
    } else {
      assert reqs[id := r][1..] == reqs[1..][id - 1 := r];
      WorkAfter(reqs[1..], id - 1, r);
    }
  }

  lemma {:induction false} WorkPositive(reqs: seq<Req>)
    requires forall id :: 0 <= id < |reqs| && !reqs[id].completed ==> reqs[id].nblocks >= 1 && reqs[id].retries <= MAX_RETRIES
    ensures Work(reqs) >= 0
    ensures forall id :: 0 <= id < |reqs| && !reqs[id].completed ==> Work(reqs) >= WorkOf(reqs[id]) > 0
  {
    if reqs != [] {
      forall id | 0 <= id < |reqs[1..]|
        ensures reqs[1..][id] == reqs[id + 1]
      {
      }
      WorkPositive(reqs[1..]);
      forall id | 0 <= id < |reqs| && !reqs[id].completed
        ensures Work(reqs) >= WorkOf(reqs[id]) > 0
      {
        if id > 0 {
          assert reqs[1..][id - 1] == reqs[id];
        }
      }
    }
  }

  function Recalibrations(devs: seq<Dev>): nat {
    if devs == [] then 0 else (if devs[0].recalibrate then 1 else 0) + Recalibrations(devs[1..])
  }

  lemma RecalibrationsOfTwo(devs: seq<Dev>)
    requires |devs| == 2
    ensures Recalibrations(devs) == (if devs[0].recalibrate then 1 else 0) + (if devs[1].recalibrate then 1 else 0)
  {
    assert devs[1..][1..] == [];
    assert Recalibrations(devs[1..]) == if devs[1].recalibrate then 1 else 0;
  }

  /** Every interrupt that is handled makes this smaller. */
  function Measure(reqs: seq<Req>, devs: seq<Dev>, current: Current): int {
    4 * Work(reqs) + Recalibrations(devs) + if current == Fake then 1 else 0
  }

  // ----- Steps -----

  ghost predicate SameShape(d0: seq<seq<Sector>>, d1: seq<seq<Sector>>) {
    |d1| == |d0| && forall d :: 0 <= d < |d0| ==> |d1[d]| == |d0[d]|
  }

  /** The current request or its sectors on the disk change. */
  lemma CurrentChanged(reqs: seq<Req>, submitted: seq<Req>, queue: seq<nat>, current: Current, loose: Current,
                       devs: seq<Dev>, disk: seq<seq<Sector>>, log: seq<Completion>, r: Req, disk': seq<seq<Sector>>)
    requires Sound(reqs, submitted, queue, current, loose, devs, disk, log) && current.Real?
    requires !r.completed && ReqOk(r, devs, disk') && SameAs(r, submitted[current.id]) && SameShape(disk, disk')
    ensures Sound(reqs[current.id := r], submitted, queue, current, loose, devs, disk', log)
  {
    hide SameAs, Agree;
    var reqs' := reqs[current.id := r];
    assert HomeOf(reqs, queue, current, loose, current.id);
    LogKept(reqs, submitted, devs, log, current.id, r);
    forall id: nat | id < |reqs'|
      ensures ReqOk(reqs'[id], devs, disk') && SameAs(reqs'[id], submitted[id]) && HomeOf(reqs', queue, current, loose, id)
    {
      assert ReqOk(reqs[id], devs, disk) && SameAs(reqs[id], submitted[id]) && HomeOf(reqs, queue, current, loose, id);
    }
  }

  lemma LogKept(reqs: seq<Req>, submitted: seq<Req>, devs: seq<Dev>, log: seq<Completion>, id: nat, r: Req)
    requires LogOk(reqs, submitted, devs, log) && id < |reqs| && !reqs[id].completed && !r.completed
    ensures LogOk(reqs[id := r], submitted, devs, log)
  {
    hide SameAs, Agree;
  }

  /** The current request fails and goes back to the front of the queue. */
  lemma Retried(reqs: seq<Req>, submitted: seq<Req>, queue: seq<nat>, current: Current,
                devs: seq<Dev>, disk: seq<seq<Sector>>, log: seq<Completion>)
    requires Sound(reqs, submitted, queue, current, Free, devs, disk, log) && current.Real?
    requires reqs[current.id].retries < MAX_RETRIES
    ensures Sound(reqs[current.id := reqs[current.id].(retries := reqs[current.id].retries + 1)], submitted, [current.id] + queue, Free, Free, devs, disk, log)
  {
    hide SameAs, Agree, LogOk;
    var r := reqs[current.id].(retries := reqs[current.id].retries + 1);
    var reqs' := reqs[current.id := r];
    assert ReqOk(reqs[current.id], devs, disk) && HomeOf(reqs, queue, current, Free, current.id);
    StillSame(reqs[current.id], r, submitted[current.id], disk);
    CurrentChanged(reqs, submitted, queue, current, Free, devs, disk, log, r, disk);
    forall id: nat | id < |reqs'|
      ensures HomeOf(reqs', [current.id] + queue, Free, Free, id)
    {
      assert HomeOf(reqs', queue, current, Free, id);
    }
  }

  lemma StillSame(r0: Req, r1: Req, submitted: Req, disk: seq<seq<Sector>>)
    requires SameAs(r0, submitted) && r1 == r0.(retries := r1.retries, completed := r1.completed, result := r1.result)
    ensures SameAs(r1, submitted) && (Agree(r0, disk, r0.done) ==> Agree(r1, disk, r1.done)) && (Agree(r0, disk, r0.count) ==> Agree(r1, disk, r1.count))
  {
  }

  /** The current request is completed. */
  lemma Ended(reqs: seq<Req>, submitted: seq<Req>, queue: seq<nat>, current: Current,
              devs: seq<Dev>, disk: seq<seq<Sector>>, log: seq<Completion>, r: Req)
    requires Sound(reqs, submitted, queue, current, Free, devs, disk, log) && current.Real?
    requires r == reqs[current.id].(completed := true, result := r.result, retries := r.retries)
    requires CompletionOk(Completion(current.id, r, disk), submitted, devs)
    ensures Sound(reqs[current.id := r], submitted, queue, Free, Free, devs, disk, log + [Completion(current.id, r, disk)])
  {
    hide SameAs, Agree, LogOk;
    var reqs' := reqs[current.id := r];
    assert HomeOf(reqs, queue, current, Free, current.id);
    StillSame(reqs[current.id], r, submitted[current.id], disk);
    LogLonger(reqs, submitted, devs, log, current.id, r, disk);
    forall id: nat | id < |reqs'|
      ensures ReqOk(reqs'[id], devs, disk) && SameAs(reqs'[id], submitted[id]) && HomeOf(reqs', queue, Free, Free, id)
    {
      assert ReqOk(reqs[id], devs, disk) && SameAs(reqs[id], submitted[id]) && HomeOf(reqs, queue, current, Free, id);
    }
  }

  lemma LogLonger(reqs: seq<Req>, submitted: seq<Req>, devs: seq<Dev>, log: seq<Completion>, id: nat, r: Req, disk: seq<seq<Sector>>)
    requires LogOk(reqs, submitted, devs, log) && id < |reqs| && !reqs[id].completed && CompletionOk(Completion(id, r, disk), submitted, devs)
    ensures LogOk(reqs[id := r], submitted, devs, log + [Completion(id, r, disk)])
  {
    hide SameAs, Agree;
    var reqs', log' := reqs[id := r], log + [Completion(id, r, disk)];
    forall m: nat | m < |reqs'| && reqs'[m].completed
      ensures exists n :: 0 <= n < |log'| && log'[n].id == m
    {
      if m == id {
        assert log'[|log|].id == id;
      } else {
        var n :| 0 <= n < |log| && log[n].id == m;
        assert log'[n].id == m;
      }
    }
  }

  /** A request that `do_request` was given joins the end of the queue. */
  lemma Queued(reqs: seq<Req>, submitted: seq<Req>, queue: seq<nat>, current: Current, loose: Current,
               devs: seq<Dev>, disk: seq<seq<Sector>>, log: seq<Completion>)
    requires Sound(reqs, submitted, queue, current, loose, devs, disk, log) && loose.Real?
    ensures Sound(reqs, submitted, queue + [loose.id], current, Free, devs, disk, log)
  {
    hide SameAs, Agree, LogOk, ReqOk;
    assert HomeOf(reqs, queue, current, loose, loose.id);
    forall id: nat | id < |reqs|
      ensures HomeOf(reqs, queue + [loose.id], current, Free, id)
    {
      assert HomeOf(reqs, queue, current, loose, id);
    }
  }

  /** It becomes current, or the first of the queue does. */
  lemma Started(reqs: seq<Req>, submitted: seq<Req>, queue: seq<nat>, loose: Current,
                devs: seq<Dev>, disk: seq<seq<Sector>>, log: seq<Completion>)
    requires Sound(reqs, submitted, queue, Free, loose, devs, disk, log)
    requires if loose.Real? then queue == [] else loose == Free && queue != []
    ensures loose.Real? ==> Sound(reqs, submitted, queue, loose, Free, devs, disk, log)
    ensures !loose.Real? ==> Sound(reqs, submitted, queue[1..], Real(queue[0]), Free, devs, disk, log)
  {
    hide SameAs, Agree, LogOk, ReqOk;
    if loose.Real? {
      forall id: nat | id < |reqs|
        ensures HomeOf(reqs, queue, loose, Free, id)
      {
        assert HomeOf(reqs, queue, Free, loose, id);
      }
    } else {
      TailMembers(queue);
      assert queue[0] in queue;
      forall id: nat | id < |reqs|
        ensures HomeOf(reqs, queue[1..], Real(queue[0]), Free, id)
      {
        assert HomeOf(reqs, queue, Free, loose, id);
      }
    }
  }

  lemma TailMembers(s: seq<nat>)
    requires Distinct(s) && s != []
    ensures Distinct(s[1..]) && forall x :: x in s[1..] <==> x in s && x != s[0]
  {
    forall x
      ensures x in s[1..] <==> x in s && x != s[0]
    {
    }
  }

  lemma Submitted(reqs: seq<Req>, submitted: seq<Req>, queue: seq<nat>, current: Current,
                  devs: seq<Dev>, disk: seq<seq<Sector>>, log: seq<Completion>, r: Req)
    requires Sound(reqs, submitted, queue, current, Free, devs, disk, log)
    requires ReqOk(r, devs, disk) && !r.completed && r.done == 0
    ensures Sound(reqs + [r], submitted + [r], queue, current, Real(|reqs|), devs, disk, log)
  {
    hide Agree;
    var reqs', submitted' := reqs + [r], submitted + [r];
    forall id: nat | id < |reqs'|
      ensures ReqOk(reqs'[id], devs, disk) && SameAs(reqs'[id], submitted'[id]) && HomeOf(reqs', queue, current, Real(|reqs|), id)
    {
      if id < |reqs| {
        assert ReqOk(reqs[id], devs, disk) && SameAs(reqs[id], submitted[id]) && HomeOf(reqs, queue, current, Free, id);
      }
    }
  }

  /** Flags for recalibration change, and the driver may begin or end a recalibration. */
  lemma FlagsChanged(reqs: seq<Req>, submitted: seq<Req>, queue: seq<nat>, current: Current, loose: Current,
                     devs: seq<Dev>, disk: seq<seq<Sector>>, log: seq<Completion>, devs': seq<Dev>, current': Current)
    requires Sound(reqs, submitted, queue, current, loose, devs, disk, log)
    requires |devs'| == |devs| && forall d :: 0 <= d < |devs| ==> devs'[d] == devs[d].(recalibrate := devs'[d].recalibrate)
    requires current' == current || (!current.Real? && !current'.Real?)
    ensures Sound(reqs, submitted, queue, current', loose, devs', disk, log)
  {
    hide SameAs, Agree;
    forall id: nat | id < |reqs|
      ensures ReqOk(reqs[id], devs', disk) && HomeOf(reqs, queue, current', loose, id)
    {
      assert ReqOk(reqs[id], devs, disk) && HomeOf(reqs, queue, current, loose, id);
    }
    forall n | 0 <= n < |log|
      ensures CompletionOk(log[n], submitted, devs')
    {
      assert CompletionOk(log[n], submitted, devs);
    }
  }

  /** When the driver is at rest with nothing queued, every request is completed. */
  lemma NothingForgotten(reqs: seq<Req>, submitted: seq<Req>, devs: seq<Dev>, disk: seq<seq<Sector>>, log: seq<Completion>, id: nat)
    requires Sound(reqs, submitted, [], Free, Free, devs, disk, log) && id < |submitted|
    ensures exists n :: 0 <= n < |log| && log[n].id == id
    ensures forall m, n :: 0 <= m < |log| && 0 <= n < |log| && log[m].id == id && log[n].id == id ==> m == n
  {
    assert HomeOf(reqs, [], Free, Free, id);
  }

  /** The work left is not negative, so that only so many interrupts can come. */
  lemma MeasureIsBound(reqs: seq<Req>, submitted: seq<Req>, queue: seq<nat>, current: Current, loose: Current,
                       devs: seq<Dev>, disk: seq<seq<Sector>>, log: seq<Completion>)
    requires Sound(reqs, submitted, queue, current, loose, devs, disk, log)
    ensures Measure(reqs, devs, current) >= 0 && Work(reqs) >= 0
  {
    forall id: nat | id < |reqs|
      ensures ReqOk(reqs[id], devs, disk)
    {
    }
    WorkPositive(reqs);
  }
}

/** The pair of virtual 8259A interrupt controllers (vpic.c) and the instructions that touch the virtual interrupt
    flag (fault.c). The bits of a register are the set of lines they stand for. */
module VirtualPic {
  import opened Options

  type Line = n: nat | n < 8

  type byte8 = bv8

  datatype PicState = Normal | WaitIcw2 | WaitIcw3 | WaitIcw4 | ReadIsr | ReadIrr

  /** `link` is the register of the master, a set of lines; `slaveLink` that of the slave, a line. */
  datatype Pic = Pic(base: nat, mask: set<Line>, irr: set<Line>, isr: set<Line>, needIcw4: bool, state: PicState,
                     isSlave: bool, link: set<Line>, slaveLink: Line)

  const ALL_LINES: set<Line> := {0, 1, 2, 3, 4, 5, 6, 7}

  function BitOn(val: byte8, i: Line): bool {
    (val >> i) & 1 == 1
  }

  function LinesOf(val: byte8): set<Line> {
    set i: Line | i < 8 && BitOn(val, i)
  }

  // ----- Writing to a controller -----

  predicate IsEoi(val: byte8) {
    val & 0xF8 == 0x20 || val & 0xF8 == 0x60
  }

  /** Ports 0x20 and 0xA0. */
  function CommandOut(p: Pic, val: byte8): Pic {
    if p.state != Normal then p
    else if val & 0x10 != 0 then p.(state := WaitIcw2, needIcw4 := val & 1 != 0)
    else if val & 0x18 == 0 then (if IsEoi(val) then p.(isr := {}) else p)
    else if val & 0x02 != 0 then p.(state := if val & 1 != 0 then ReadIrr else ReadIsr)
    else p
  }

  /** Ports 0x21 and 0xA1. */
  function DataOut(p: Pic, val: byte8): Pic {
    match p.state
    case Normal => p.(mask := LinesOf(val))
    case WaitIcw2 => p.(base := (val & 7) as nat, state := WaitIcw3)
    case WaitIcw3 =>
      var q := p.(state := if p.needIcw4 then WaitIcw4 else Normal);
      if p.isSlave then q.(slaveLink := (val & 7) as nat) else q.(link := LinesOf(val))
    case WaitIcw4 => p.(state := Normal)
    case _ => p
  }

  /** The initialisation sequence: three or four writes after which the controller works again, with its vectors and
      its connection set and nothing else changed. */
  lemma Initialised(p: Pic, icw1: byte8, icw2: byte8, icw3: byte8, icw4: byte8)
    requires p.state == Normal && icw1 & 0x10 != 0
    ensures var q := DataOut(DataOut(CommandOut(p, icw1), icw2), icw3);
            var r := if icw1 & 1 != 0 then DataOut(q, icw4) else q;
            && r.state == Normal && r.mask == p.mask && r.irr == p.irr && r.isr == p.isr
            && (if p.isSlave then r.slaveLink == (icw3 & 7) as nat && r.link == p.link
                else r.link == LinesOf(icw3) && r.slaveLink == p.slaveLink)
            && r.base == icw2 as nat % 8 && (r.base == (icw2 & 0xF8) as nat <==> icw2 == 0)
  {
    BaseKept(icw2);
  }

  /** The base keeps the lowest three bits of the vector, where the 8259A data sheet keeps the highest five. */
  lemma BaseKept(icw2: byte8)
    ensures (icw2 & 7) as nat == icw2 as nat % 8
    ensures (icw2 & 7) as nat == (icw2 & 0xF8) as nat <==> icw2 == 0
  {
    assert (icw2 & 7) == (icw2 & 0xF8) <==> icw2 == 0;
    assert (icw2 & 7) as nat == (icw2 & 0xF8) as nat <==> (icw2 & 7) == (icw2 & 0xF8);
  }

  // ----- The machine -----

  /** An interrupt that was simulated, with the line it came from; lines of the slave are 8 to 15. */
  datatype Delivery = Delivery(line: nat, vector: nat)

  /** The line of an interrupt that no line has asked for. */
  const NO_LINE := 16

  /** `flag` is the virtual interrupt flag; `hook` tells that `vpic_return_hook` is installed, `awake` that the task of
      the machine can run. */
  datatype Vm = Vm(master: Pic, slave: Pic, flag: bool, hook: bool, hlted: bool, awake: bool, delivered: seq<Delivery>)

  /** Everything that touches the controllers or the flag. `Hook` is a return to what was interrupted, in the machine or
      not; `undefined` is what `BSF` leaves in its register when there is no bit to find. */
  datatype Step =
    | Raise(irq: nat)
    | Hook(toMachine: bool, undefined: nat)
    | Out(toSlave: bool, command: bool, val: byte8)
    | In(fromSlave: bool, command: bool)
    | SetMask(on: bool, masterLines: set<Line>, slaveLines: set<Line>)
    | Cli | Sti(haltFollows: bool) | PopFlags(flag: bool) | Hlt | Int

  function SlaveLine(i: Line): nat {
    var n: nat := i;
    n + 8
  }

  ghost predicate IsLowest(s: set<Line>, i: Line) {
    i in s && forall j :: j in s ==> i <= j
  }

  function LowestFrom(s: set<Line>, i: Line): (r: Line)
    requires exists j :: j in s && i <= j
    requires forall j :: j in s ==> i <= j
    ensures IsLowest(s, r)
    decreases 8 - i
  {
    if i in s then i else LowestFrom(s, i + 1)
  }

  function Lowest(s: set<Line>): (r: Line)
    requires s != {}
    ensures IsLowest(s, r)
  {
    assert exists j :: j in s;
    LowestFrom(s, 0)
  }

  /** The byte `1 << n`. */
  function BitByte(n: nat): set<Line> {
    if n % 32 < 8 then {n % 32} else {}
  }

  function Installed(s: Vm): Vm {
    if s.flag && s.master.irr != {} then s.(hook := true) else s
  }

  /** A request is entered in the register of its controller, and what is masked there is dropped from it. */
  function Requested(p: Pic, i: Line): Pic {
    p.(irr := (p.irr + {i}) - p.mask)
  }

  function Raised(s: Vm, irq: nat): Vm
    requires irq < 16
  {
    var t := if irq >= 8 then s.(slave := Requested(s.slave, irq - 8), master := Requested(s.master, s.slave.slaveLink))
             else s.(master := Requested(s.master, irq));
    if !s.flag then t else t.(hook := true, hlted := false, awake := s.awake || s.hlted)
  }

  predicate Due(s: Vm, toMachine: bool) {
    toMachine && s.flag && s.master.isr == {} && s.master.irr != {}
  }

  /** The lowest line of the master is served, or that of the slave if it is the line that the slave is linked to. */
  function Served(s: Vm, undefined: nat): Vm
    requires s.master.irr != {}
  {
    var irq := Lowest(s.master.irr);
    var m := s.master.(irr := s.master.irr - {irq}, isr := {irq});
    if m.link != {irq} then
      s.(master := m, flag := false, delivered := s.delivered + [Delivery(irq, m.base + irq)])
    else if s.slave.irr == {} then
      s.(master := m, slave := s.slave.(isr := BitByte(undefined)), flag := false,
         delivered := s.delivered + [Delivery(NO_LINE, s.slave.base + undefined)])
    else
      var sirq := Lowest(s.slave.irr);
      var v := s.slave.(irr := s.slave.irr - {sirq}, isr := {sirq});
      s.(master := if v.irr != {} then Requested(m, v.slaveLink) else m, slave := v, flag := false,
         delivered := s.delivered + [Delivery(SlaveLine(sirq), v.base + sirq)])
  }

  function Returned(s: Vm, toMachine: bool, undefined: nat): Vm {
    var t := if Due(s, toMachine) then Served(s, undefined) else s;
    if t.master.irr == {} then t.(hook := false) else t
  }

  function PortOut(p: Pic, command: bool, val: byte8): Pic {
    if command then CommandOut(p, val) else DataOut(p, val)
  }

  function Written(s: Vm, toSlave: bool, command: bool, val: byte8): Vm {
    var p := if toSlave then s.slave else s.master;
    var q := PortOut(p, command, val);
    var t := if toSlave then s.(slave := q) else s.(master := q);
    if command && EffectiveEoi(p, val) then Installed(t) else t
  }

  /** The end-of-interrupt commands of the 8259A, unspecific ones and those for a line. */
  predicate EndsInterrupt(val: byte8) {
    0x20 <= val <= 0x27 || 0x60 <= val <= 0x67
  }

  /** An end-of-interrupt command that the controller takes notice of. */
  predicate EffectiveEoi(p: Pic, val: byte8) {
    p.state == Normal && EndsInterrupt(val)
  }

  /** Nothing that is written to a controller changes what is pending, and just an effective end-of-interrupt command
      what is in service. */
  lemma PortFacts(p: Pic, command: bool, val: byte8)
    ensures var q := PortOut(p, command, val);
            && q.irr == p.irr && q.isSlave == p.isSlave
            && q.isr == (if command && EffectiveEoi(p, val) then {} else p.isr)
            && (command ==> q.mask == p.mask && q.link == p.link && q.slaveLink == p.slaveLink && q.base == p.base)
            && (!p.isSlave ==> q.slaveLink == p.slaveLink) && (p.isSlave ==> q.link == p.link)
  {
    hide LinesOf;
    EoiByValue(val);
  }

  lemma EoiByValue(val: byte8)
    ensures EndsInterrupt(val) <==> val & 0x10 == 0 && val & 0x18 == 0 && IsEoi(val)
  {
  }

  /** What a command byte does, by its value: commands begin an initialisation, end interrupts, or select the register
      to be read; nothing else of the controller changes. */
  lemma CommandByValue(p: Pic, val: byte8)
    ensures var q := CommandOut(p, val);
            if p.state != Normal then q == p
            else if 16 <= val % 32 then q == p.(state := WaitIcw2, needIcw4 := val % 2 == 1)
            else if 8 <= val % 32 && 2 <= val % 4 then q == p.(state := if val % 2 == 1 then ReadIrr else ReadIsr)
            else q == p.(isr := if EndsInterrupt(val) then {} else p.isr)
  {
    EoiByValue(val);
    CommandBits(val);
  }

  lemma CommandBits(val: byte8)
    ensures (16 <= val % 32 <==> val & 0x10 != 0) && (val % 2 == 1 <==> val & 1 != 0) && (2 <= val % 4 <==> val & 0x02 != 0)
    ensures val % 32 < 16 ==> (8 <= val % 32 <==> val & 0x18 != 0)
  {
  }

  /** The 8259A data sheet reads the request register after a command with a low bit of zero and the in-service register
      after one with a one. Here it is the other way round: what is read is right if and only if the two are equal. */
  lemma OtherRegisterRead(p: Pic, val: byte8)
    requires p.state == Normal && 8 <= val % 32 < 16 && 2 <= val % 4
    ensures var q := CommandOut(p, val);
            && (q.state == ReadIsr || q.state == ReadIrr)
            && ((if q.state == ReadIsr then q.isr else q.irr) == (if val % 2 == 0 then p.irr else p.isr) <==> p.irr == p.isr)
  {
    CommandByValue(p, val);
  }

  /** The lines that the bits of a byte stand for. */
  lemma LinesByValue(val: byte8)
    ensures var s := LinesOf(val);
            && (0 in s <==> val % 2 == 1) && (1 in s <==> val % 4 >= 2) && (2 in s <==> val % 8 >= 4) && (3 in s <==> val % 16 >= 8)
            && (4 in s <==> val % 32 >= 16) && (5 in s <==> val % 64 >= 32) && (6 in s <==> val % 128 >= 64) && (7 in s <==> val >= 128)
  {
  }

  function AfterRead(p: Pic, command: bool): Pic {
    if command then p.(state := Normal) else p
  }

  /** What only the running machine does: the kernel returns to it, or it executes an instruction. */
  predicate ByMachine(step: Step) {
    !step.Raise? && !step.SetMask? && (step.Hook? ==> step.toMachine)
  }

  /** A suspended machine is never returned to: `schedule` comes before the hook, which is the current task's
      (entry.S:80-104). */
  predicate Enabled(s: Vm, step: Step) {
    (step.Raise? ==> step.irq < 16) && (step.Hook? ==> s.hook) && (ByMachine(step) ==> s.awake)
  }

  function Next(s: Vm, step: Step): Vm
    requires Enabled(s, step)
  {
    match step
    case Raise(irq) => Raised(s, irq)
    case Hook(toMachine, undefined) => Returned(s, toMachine, undefined)
    case Out(toSlave, command, val) => Written(s, toSlave, command, val)
    case In(fromSlave, command) =>
      if fromSlave then s.(slave := AfterRead(s.slave, command)) else s.(master := AfterRead(s.master, command))
    case SetMask(on, m, v) =>
      s.(master := s.master.(mask := if on then s.master.mask + m else s.master.mask - m),
         slave := s.slave.(mask := if on then s.slave.mask + v else s.slave.mask - v))
    case Cli => s.(flag := false, hook := false)
    case Sti(haltFollows) => Installed(s.(flag := true, hlted := s.hlted || haltFollows, awake := s.awake && !haltFollows))
    case PopFlags(flag) => if flag then Installed(s.(flag := true)) else s.(flag := false, hook := false)
    case Hlt => s.(hlted := true, awake := false)
    case Int => s.(flag := false)
  }

  /** A line is masked by `set_mask` and by what is written to the mask register of its controller, and by nothing else. */
  lemma MaskAfter(s: Vm, step: Step, i: Line)
    requires Enabled(s, step)
    ensures var toMask := step.Out? && !step.command;
            && (i in Next(s, step).master.mask <==>
                  if step.SetMask? && i in step.masterLines then step.on
                  else if toMask && !step.toSlave && s.master.state == Normal then i in LinesOf(step.val) else i in s.master.mask)
            && (i in Next(s, step).slave.mask <==>
                  if step.SetMask? && i in step.slaveLines then step.on
                  else if toMask && step.toSlave && s.slave.state == Normal then i in LinesOf(step.val) else i in s.slave.mask)
  {
    hide Raised, Returned, Written, LinesOf;
    match step {
      case Raise(irq) => RaisedMasks(s, irq);
      case Hook(toMachine, undefined) => ReturnedMasks(s, toMachine, undefined);
      case Out(toSlave, command, val) => WrittenMasks(s, toSlave, command, val);
      case _ =>
    }
  }

  lemma RaisedMasks(s: Vm, irq: nat)
    requires irq < 16
    ensures Raised(s, irq).master.mask == s.master.mask && Raised(s, irq).slave.mask == s.slave.mask
  {
  }

  lemma ReturnedMasks(s: Vm, toMachine: bool, undefined: nat)
    ensures Returned(s, toMachine, undefined).master.mask == s.master.mask && Returned(s, toMachine, undefined).slave.mask == s.slave.mask
  {
    hide Lowest, BitByte;
  }

  lemma WrittenMasks(s: Vm, toSlave: bool, command: bool, val: byte8)
    ensures var p := if toSlave then s.slave else s.master;
            var mask := if !command && p.state == Normal then LinesOf(val) else p.mask;
            && Written(s, toSlave, command, val).master.mask == (if toSlave then s.master.mask else mask)
            && Written(s, toSlave, command, val).slave.mask == (if toSlave then mask else s.slave.mask)
  {
    hide LinesOf, CommandOut, EffectiveEoi;
    PortFacts(if toSlave then s.slave else s.master, command, val);
  }

  /** The flag is what the last instruction about it has made it, but off after an interrupt. */
  lemma FlagAfter(s: Vm, step: Step)
    requires Enabled(s, step)
    ensures Next(s, step).flag <==>
              match step
              case Sti(_) => true
              case PopFlags(flag) => flag
              case Cli => false
              case Int => false
              case Hook(toMachine, _) => s.flag && !(toMachine && s.master.isr == {} && s.master.irr != {})
              case _ => s.flag
  {
  }

  // ----- What every step keeps -----

  ghost predicate OneAtMost(s: set<Line>) {
    forall a, b :: a in s && b in s ==> a == b
  }

  /** An interrupt that could be delivered is never forgotten, each controller serves one at a time, and just `HLT` puts
      the machine to sleep. */
  ghost predicate Sound(s: Vm) {
    && (s.flag && s.master.irr != {} ==> s.hook)
    && OneAtMost(s.master.isr) && OneAtMost(s.slave.isr)
    && !s.master.isSlave && s.slave.isSlave
    && (s.hlted <==> !s.awake)
  }

  lemma ServedKeeps(s: Vm, undefined: nat)
    requires s.master.irr != {} && OneAtMost(s.slave.isr)
    ensures var r := Served(s, undefined);
            && OneAtMost(r.master.isr) && r.master.isr != {} && OneAtMost(r.slave.isr) && !r.flag && r.hook == s.hook
            && r.master.isSlave == s.master.isSlave && r.slave.isSlave == s.slave.isSlave
            && r.master.link == s.master.link && r.slave.slaveLink == s.slave.slaveLink
            && r.master.mask == s.master.mask && r.slave.mask == s.slave.mask
            && |r.delivered| == |s.delivered| + 1 && r.awake == s.awake && r.hlted == s.hlted
  {
    hide Lowest, IsLowest;
    var irq := Lowest(s.master.irr);
    if s.master.link == {irq} && s.slave.irr == {} {
      BitByteOne(undefined);
    }
  }

  lemma BitByteOne(n: nat)
    ensures OneAtMost(BitByte(n))
  {
  }

  lemma WriteKeepsSound(s: Vm, toSlave: bool, command: bool, val: byte8)
    requires Sound(s)
    ensures Sound(Written(s, toSlave, command, val))
  {
    hide PortOut, EffectiveEoi;
    PortFacts(if toSlave then s.slave else s.master, command, val);
  }

  lemma StepKeepsSound(s: Vm, step: Step)
    requires Sound(s) && Enabled(s, step)
    ensures Sound(Next(s, step))
  {
    hide Served, Written;
    match step
    case Hook(toMachine, undefined) =>
      if Due(s, toMachine) {
        ServedKeeps(s, undefined);
      }
    case Out(toSlave, command, val) =>
      WriteKeepsSound(s, toSlave, command, val);
    case _ =>
  }

  // ----- One delivery -----

  predicate Pending(s: Vm, l: nat) {
    if l < 8 then l in s.master.irr else l < 16 && l - 8 in s.slave.irr
  }

  predicate Masked(s: Vm, l: nat) {
    if l < 8 then l in s.master.mask else l < 16 && l - 8 in s.slave.mask
  }

  /** The slave is connected to a line of the master that is not masked. */
  ghost predicate Wired(s: Vm) {
    s.master.link == {s.slave.slaveLink} && s.slave.slaveLink !in s.master.mask
  }

  /** The line that the slave is connected to asks for service just when the slave has something pending. */
  ghost predicate Cascade(s: Vm) {
    s.slave.slaveLink in s.master.irr <==> s.slave.irr != {}
  }

  ghost predicate Connected(s: Vm) {
    Wired(s) && Cascade(s)
  }

  /** The place of a line in the order of priority: those of the slave stand where it is connected. */
  function Rank(s: Vm, l: nat): (nat, nat) {
    if l < 8 then (l, 0) else (s.slave.slaveLink, l)
  }

  predicate NoLater(a: (nat, nat), b: (nat, nat)) {
    a.0 < b.0 || (a.0 == b.0 && a.1 <= b.1)
  }

  /** A line that asks by itself. */
  predicate Asks(s: Vm, l: nat) {
    Pending(s, l) && l != s.slave.slaveLink
  }

  predicate Delivers(s: Vm, step: Step)
    requires Enabled(s, step)
  {
    Next(s, step).delivered != s.delivered
  }

  /** The delivery is of a line that asked, of the highest priority; it is not pending any more. */
  ghost predicate DeliversFirst(s: Vm, r: Vm) {
    && |r.delivered| == |s.delivered| + 1 && r.delivered[..|s.delivered|] == s.delivered
    && var d := r.delivered[|s.delivered|];
    && Asks(s, d.line) && (forall l: nat :: Asks(s, l) ==> NoLater(Rank(s, d.line), Rank(s, l))) && !Pending(r, d.line)
    && d.vector == if d.line < 8 then s.master.base + d.line else s.slave.base + d.line - 8
  }

  /** Only a return to the machine delivers, with the flag set and nothing in service; the flag is off afterwards, and
      something is in service. */
  lemma DeliveryIsAllowed(s: Vm, step: Step)
    requires Enabled(s, step) && Sound(s)
    ensures Delivers(s, step) <==> step.Hook? && step.toMachine && s.flag && s.master.isr == {} && s.master.irr != {}
    ensures Delivers(s, step) ==> !Next(s, step).flag && Next(s, step).master.isr != {}
                                  && |Next(s, step).delivered| == |s.delivered| + 1
  {
    hide Served, PortOut, EffectiveEoi;
    if step.Hook? && Due(s, step.toMachine) {
      ServedKeeps(s, step.undefined);
      assert |Next(s, step).delivered| == |s.delivered| + 1;
    }
  }

  /** What is delivered is the pending line of the highest priority, which is not pending any more. */
  lemma DeliveryIsFirst(s: Vm, step: Step)
    requires Enabled(s, step) && Connected(s) && Delivers(s, step)
    ensures DeliversFirst(s, Next(s, step))
  {
    hide CommandOut, DataOut, LowestFrom, PortOut, EffectiveEoi;
    assert step.Hook? && Due(s, step.toMachine) by {
      hide Served;
    }
    var irq := Lowest(s.master.irr);
    if s.master.link == {irq} {
      assert irq in {s.slave.slaveLink};
      var sirq := Lowest(s.slave.irr);
    } else {
      assert irq != s.slave.slaveLink;
      forall l: nat | Asks(s, l) && l >= 8
        ensures irq <= s.slave.slaveLink
      {
        assert l - 8 in s.slave.irr;
      }
    }
  }

  // ----- Runs -----

  predicate CanRun(s: Vm, steps: seq<Step>)
    decreases |steps|
  {
    steps == [] || (Enabled(s, steps[0]) && CanRun(Next(s, steps[0]), steps[1..]))
  }

  function Run(s: Vm, steps: seq<Step>): Vm
    requires CanRun(s, steps)
    decreases |steps|
  {
    if steps == [] then s else Run(Next(s, steps[0]), steps[1..])
  }

  /** The machine and its controllers when they are made (`create_vpic`). */
  const CREATED := Vm(Pic(8, ALL_LINES, {}, {}, false, Normal, false, {}, 0), Pic(0x70, ALL_LINES, {}, {}, false, Normal, true, {}, 0),
                      false, false, false, true, [])

  /** In every reachable state a pending interrupt that could be delivered has its hook. */
  lemma {:induction false} RunKeepsSound(s: Vm, steps: seq<Step>)
    requires Sound(s) && CanRun(s, steps)
    ensures Sound(Run(s, steps))
    decreases |steps|
  {
    if steps != [] {
      StepKeepsSound(s, steps[0]);
      RunKeepsSound(Next(s, steps[0]), steps[1..]);
    }
  }

  /** The effective end-of-interrupt commands to the master in a run. */
  function Ends(s: Vm, steps: seq<Step>): nat
    requires CanRun(s, steps)
    decreases |steps|
  {
    if steps == [] then 0 else
      (if steps[0].Out? && !steps[0].toSlave && steps[0].command && EffectiveEoi(s.master, steps[0].val) then 1 else 0)
      + Ends(Next(s, steps[0]), steps[1..])
  }

  /** The instructions of a run that set the flag. */
  function Enables(steps: seq<Step>): nat {
    if steps == [] then 0 else
      (if steps[0].Sti? || (steps[0].PopFlags? && steps[0].flag) then 1 else 0) + Enables(steps[1..])
  }

  function One(b: bool): nat {
    if b then 1 else 0
  }

  /** Between two deliveries there are an effective end-of-interrupt command to the master and an instruction that sets
      the flag: there is no more than one delivery for each, and one for the beginning. */
  lemma {:induction false} DeliveriesAreSeparated(s: Vm, steps: seq<Step>)
    requires CanRun(s, steps) && Sound(s)
    ensures |Run(s, steps).delivered| + One(Run(s, steps).master.isr == {}) <= |s.delivered| + One(s.master.isr == {}) + Ends(s, steps)
    ensures |Run(s, steps).delivered| + One(Run(s, steps).flag) <= |s.delivered| + One(s.flag) + Enables(steps)
    decreases |steps|
  {
    if steps != [] {
      SeparatedStep(s, steps[0]);
      StepKeepsSound(s, steps[0]);
      DeliveriesAreSeparated(Next(s, steps[0]), steps[1..]);
    }
  }

  lemma SeparatedStep(s: Vm, step: Step)
    requires Enabled(s, step) && Sound(s)
    ensures var r := Next(s, step);
            var ends := step.Out? && !step.toSlave && step.command && EffectiveEoi(s.master, step.val);
            && |r.delivered| + One(r.master.isr == {}) <= |s.delivered| + One(s.master.isr == {}) + One(ends)
            && |r.delivered| + One(r.flag) <= |s.delivered| + One(s.flag) + One(step.Sti? || (step.PopFlags? && step.flag))
  {
    hide Served, PortOut, EffectiveEoi;
    DeliveryIsAllowed(s, step);
    if step.Out? {
      PortFacts(if step.toSlave then s.slave else s.master, step.command, step.val);
    }
    assert step.Hook? && !Due(s, step.toMachine) ==> Next(s, step).master == s.master && Next(s, step).flag == s.flag;
  }

  // ----- Conservation of requests -----

  function Count(log: seq<Delivery>, l: nat): nat {
    if log == [] then 0 else Count(log[..|log| - 1], l) + One(log[|log| - 1].line == l)
  }

  lemma CountMore(log: seq<Delivery>, d: Delivery, l: nat)
    ensures Count(log + [d], l) == Count(log, l) + One(d.line == l)
  {
    assert (log + [d])[..|log|] == log;
  }

  /** The line of the master that the slave is connected to is not raised directly, and masked lines of the slave are
      not raised. */
  predicate Proper(s: Vm, step: Step) {
    step.Raise? ==> if step.irq < 8 then step.irq != s.slave.slaveLink else !Masked(s, step.irq)
  }

  /** The run keeps the slave connected. */
  ghost predicate Orderly(s: Vm, steps: seq<Step>)
    requires CanRun(s, steps)
    decreases |steps|
  {
    Wired(s) && (steps != [] ==> Proper(s, steps[0]) && Orderly(Next(s, steps[0]), steps[1..]))
  }

  predicate NeverMasked(s: Vm, steps: seq<Step>, l: nat)
    requires CanRun(s, steps)
    decreases |steps|
  {
    !Masked(s, l) && (steps != [] ==> NeverMasked(Next(s, steps[0]), steps[1..], l))
  }

  /** How often the line was raised while it was not pending. */
  function Requests(s: Vm, steps: seq<Step>, l: nat): nat
    requires CanRun(s, steps)
    decreases |steps|
  {
    if steps == [] then 0 else One(steps[0] == Raise(l) && !Pending(s, l)) + Requests(Next(s, steps[0]), steps[1..], l)
  }

  /** Requests are entered and served; nothing else touches what is pending. */
  lemma OthersKeepPending(s: Vm, step: Step)
    requires Enabled(s, step) && !step.Hook? && !step.Raise?
    ensures var r := Next(s, step); r.master.irr == s.master.irr && r.slave.irr == s.slave.irr && r.delivered == s.delivered
  {
    hide PortOut, EffectiveEoi, Served;
    if step.Out? {
      PortFacts(if step.toSlave then s.slave else s.master, step.command, step.val);
    }
  }

  lemma LinkKept(s: Vm, step: Step)
    requires Enabled(s, step) && Sound(s) && Wired(s) && Wired(Next(s, step))
    ensures Next(s, step).slave.slaveLink == s.slave.slaveLink
  {
    hide PortOut, EffectiveEoi, Served;
    if step.Hook? && Due(s, step.toMachine) {
      ServedKeeps(s, step.undefined);
    }
    if step.Out? && step.toSlave {
      assert s.slave.slaveLink in s.master.link && Next(s, step).slave.slaveLink in s.master.link;
    }
  }

  lemma ServedCascade(s: Vm, undefined: nat)
    requires Connected(s) && s.master.irr != {}
    ensures Cascade(Served(s, undefined))
  {
    hide LowestFrom;
    var irq := Lowest(s.master.irr);
    if s.master.link == {irq} {
      assert irq in {s.slave.slaveLink};
    } else {
      assert irq != s.slave.slaveLink;
    }
  }

  lemma RaisedCascade(s: Vm, irq: nat)
    requires Connected(s) && irq < 16 && Proper(s, Raise(irq))
    ensures Cascade(Raised(s, irq))
  {
    if irq >= 8 {
      assert irq - 8 in Raised(s, irq).slave.irr;
    }
  }

  lemma CascadeStep(s: Vm, step: Step)
    requires Enabled(s, step) && Sound(s) && Connected(s) && Wired(Next(s, step)) && Proper(s, step)
    ensures Connected(Next(s, step)) && Next(s, step).slave.slaveLink == s.slave.slaveLink
  {
    hide Served, Written, Requested;
    LinkKept(s, step);
    match step
    case Hook(toMachine, undefined) =>
      if Due(s, toMachine) {
        ServedCascade(s, undefined);
      }
    case Raise(irq) =>
      RaisedCascade(s, irq);
    case _ =>
      OthersKeepPending(s, step);
  }

  lemma ServedConserves(s: Vm, undefined: nat, l: nat)
    requires Connected(s) && s.master.irr != {} && l < 16 && l != s.slave.slaveLink && !Masked(s, l)
    ensures var r := Served(s, undefined); Count(r.delivered, l) + One(Pending(r, l)) == Count(s.delivered, l) + One(Pending(s, l))
  {
    hide LowestFrom, Count;
    var irq := Lowest(s.master.irr);
    if s.master.link == {irq} {
      assert irq in {s.slave.slaveLink};
      var sirq := Lowest(s.slave.irr);
      CountMore(s.delivered, Delivery(SlaveLine(sirq), s.slave.base + sirq), l);
    } else {
      assert irq != s.slave.slaveLink;
      CountMore(s.delivered, Delivery(irq, s.master.base + irq), l);
    }
  }

  lemma ConservedStep(s: Vm, step: Step, l: nat)
    requires Enabled(s, step) && Connected(s) && Proper(s, step) && l < 16 && l != s.slave.slaveLink && !Masked(s, l)
    ensures var r := Next(s, step);
            Count(r.delivered, l) + One(Pending(r, l)) == Count(s.delivered, l) + One(Pending(s, l)) + One(step == Raise(l) && !Pending(s, l))
  {
    hide Served, Written, Count;
    match step
    case Hook(toMachine, undefined) =>
      if Due(s, toMachine) {
        ServedConserves(s, undefined, l);
      }
    case Raise(irq) =>
    case _ =>
      OthersKeepPending(s, step);
  }

  /** A line that stays unmasked is delivered exactly as often as it was requested, but for what is pending: every
      request is pending or was delivered, once. */
  lemma {:induction false} RequestsAreConserved(s: Vm, steps: seq<Step>, l: nat)
    requires CanRun(s, steps) && Sound(s) && Cascade(s) && l < 16 && l != s.slave.slaveLink
    requires Orderly(s, steps) && NeverMasked(s, steps, l)
    ensures var r := Run(s, steps);
            Count(r.delivered, l) + One(Pending(r, l)) == Count(s.delivered, l) + One(Pending(s, l)) + Requests(s, steps, l)
    decreases |steps|
  {
    if steps != [] {
      var s1 := Next(s, steps[0]);
      hide Next, Count, Cascade, Sound, Pending;
      ConservedStep(s, steps[0], l);
      CascadeStep(s, steps[0]);
      StepKeepsSound(s, steps[0]);
      RequestsAreConserved(s1, steps[1..], l);
    }
  }

  /** What a request does to what is pending: a line is lost if and only if it is masked by then, and it is its own
      controller that notices. */
  lemma LostWhenMasked(s: Vm, irq: nat, l: nat)
    requires irq < 16 && l < 16 && Pending(s, l)
    ensures !Pending(Raised(s, irq), l) <==> Masked(s, l) && (l < 8 || irq >= 8)
  {
  }

  /** A request is pending if and only if its line is not masked; with the flag set the hook is there for it. */
  lemma RaisedIsPending(s: Vm, irq: nat)
    requires irq < 16
    ensures Pending(Raised(s, irq), irq) <==> !Masked(s, irq)
    ensures Wired(s) && !Masked(s, irq) ==> Raised(s, irq).master.irr != {}
    ensures s.flag ==> Raised(s, irq).hook && !Raised(s, irq).hlted && (s.hlted ==> Raised(s, irq).awake)
  {
    if !Masked(s, irq) && irq < 8 {
      assert irq in Raised(s, irq).master.irr;
    }
    if Wired(s) && irq >= 8 {
      assert s.slave.slaveLink in Raised(s, irq).master.irr;
    }
  }

  /** The mask is not consulted when an interrupt is delivered, which the 8259A data sheet asks for: line 1 is unmasked,
      raised and masked again, and delivered once the flag is set. */
  lemma MaskedIsDelivered()
    ensures var steps := [Out(false, false, 0xFD), Raise(1), SetMask(true, {1}, {}), Sti(false), Hook(true, 0)];
            && CanRun(CREATED, steps) && CanRun(CREATED, steps[..4])
            && Run(CREATED, steps).delivered == [Delivery(1, 9)] && Masked(Run(CREATED, steps[..4]), 1)
  {
    hide CanRun, Run, Next, Enabled, Masked;
    FirstLinePending();
    var s3, s4, s5 := MaskedMeanwhile();
    RunNothing(s5);
    RunNothing(s4);
    RunLonger(s4, Hook(true, 0), [], s5);
    var last := [Hook(true, 0)] + [];
    FourLonger(Sti(false), s3, s4, last, s5);
    FourLonger(Sti(false), s3, s4, [], s4);
    assert [Out(false, false, 0xFD)] + ([Raise(1)] + ([SetMask(true, {1}, {})] + ([Sti(false)] + last)))
           == [Out(false, false, 0xFD), Raise(1), SetMask(true, {1}, {}), Sti(false), Hook(true, 0)];
    assert [Out(false, false, 0xFD)] + ([Raise(1)] + ([SetMask(true, {1}, {})] + ([Sti(false)] + [])))
           == [Out(false, false, 0xFD), Raise(1), SetMask(true, {1}, {}), Sti(false), Hook(true, 0)][..4];
  }

  /** The new machine with line 1 unmasked, and with that line raised. */
  const UNMASKED := CREATED.(master := CREATED.master.(mask := ALL_LINES - {1}))
  const RAISED := UNMASKED.(master := UNMASKED.master.(irr := {1}))

  lemma FirstLinePending()
    ensures Enabled(CREATED, Out(false, false, 0xFD)) && Next(CREATED, Out(false, false, 0xFD)) == UNMASKED
    ensures Enabled(UNMASKED, Raise(1)) && Next(UNMASKED, Raise(1)) == RAISED
  {
    OneLineClear();
    assert RAISED.master == Requested(UNMASKED.master, 1);
  }

  lemma OneLineClear()
    ensures LinesOf(0xFD) == ALL_LINES - {1}
  {
    assert !BitOn(0xFD, 1);
    assert BitOn(0xFD, 0) && BitOn(0xFD, 2) && BitOn(0xFD, 3) && BitOn(0xFD, 4) && BitOn(0xFD, 5) && BitOn(0xFD, 6) && BitOn(0xFD, 7);
  }

  lemma MaskedMeanwhile() returns (s3: Vm, s4: Vm, s5: Vm)
    ensures Enabled(RAISED, SetMask(true, {1}, {})) && s3 == Next(RAISED, SetMask(true, {1}, {}))
    ensures Enabled(s3, Sti(false)) && s4 == Next(s3, Sti(false)) && Masked(s4, 1)
    ensures Enabled(s4, Hook(true, 0)) && s5 == Next(s4, Hook(true, 0)) && s5.delivered == [Delivery(1, 9)]
  {
    hide LowestFrom;
    s3 := Next(RAISED, SetMask(true, {1}, {}));
    s4 := Next(s3, Sti(false));
    assert 1 in s4.master.irr;
    s5 := Next(s4, Hook(true, 0));
    assert Lowest(s4.master.irr) == 1;
  }

  /** A run that unmasks and raises line 1, masks it again and goes on. */
  lemma FourLonger(step: Step, s3: Vm, s4: Vm, rest: seq<Step>, r: Vm)
    requires Enabled(RAISED, SetMask(true, {1}, {})) && s3 == Next(RAISED, SetMask(true, {1}, {}))
    requires Enabled(s3, step) && s4 == Next(s3, step) && CanRun(s4, rest) && Run(s4, rest) == r
    ensures var steps := [Out(false, false, 0xFD)] + ([Raise(1)] + ([SetMask(true, {1}, {})] + ([step] + rest)));
            CanRun(CREATED, steps) && Run(CREATED, steps) == r
  {
    hide CanRun, Run, Next, Enabled;
    FirstLinePending();
    RunLonger(s3, step, rest, r);
    RunLonger(RAISED, SetMask(true, {1}, {}), [step] + rest, r);
    TwoLonger([SetMask(true, {1}, {})] + ([step] + rest), r);
  }

  lemma TwoLonger(rest: seq<Step>, r: Vm)
    requires CanRun(RAISED, rest) && Run(RAISED, rest) == r
    ensures var steps := [Out(false, false, 0xFD)] + ([Raise(1)] + rest); CanRun(CREATED, steps) && Run(CREATED, steps) == r
  {
    hide CanRun, Run, Next, Enabled;
    FirstLinePending();
    RunLonger(UNMASKED, Raise(1), rest, r);
    RunLonger(CREATED, Out(false, false, 0xFD), [Raise(1)] + rest, r);
  }

  lemma RunNothing(s: Vm)
    ensures CanRun(s, []) && Run(s, []) == s
  {
  }

  lemma RunLonger(s: Vm, step: Step, rest: seq<Step>, r: Vm)
    requires Enabled(s, step) && CanRun(Next(s, step), rest) && Run(Next(s, step), rest) == r
    ensures CanRun(s, [step] + rest) && Run(s, [step] + rest) == r
  {
    assert ([step] + rest)[1..] == rest;
  }

  // ----- Sleeping machines -----

  /** What is pending while the flag is set finds the machine awake. */
  predicate Attended(s: Vm) {
    s.flag && s.master.irr != {} ==> s.awake
  }

  /** That is lost just by a `HLT`, alone or behind `STI`, with something pending already and the flag set: it suspends
      the machine all the same. */
  lemma LostByHalting(s: Vm, step: Step)
    requires Enabled(s, step) && Sound(s) && Attended(s)
    ensures var r := Next(s, step); !Attended(r) <==> (step.Hlt? || step == Sti(true)) && r.flag && r.master.irr != {}
  {
    hide Served, Written;
    match step
    case Hook(toMachine, undefined) =>
      if Due(s, toMachine) {
        ServedKeeps(s, undefined);
      }
    case Out(toSlave, command, val) =>
      OthersKeepPending(s, step);
      FlagKept(s, toSlave, command, val);
    case _ =>
  }

  lemma FlagKept(s: Vm, toSlave: bool, command: bool, val: byte8)
    ensures var r := Written(s, toSlave, command, val); r.flag == s.flag && r.awake == s.awake
  {
    hide PortOut, EffectiveEoi;
  }

  /** Nothing is delivered to a sleeping machine, and nothing but a further request wakes it. */
  lemma {:induction false} SleepsUntilRaised(s: Vm, steps: seq<Step>)
    requires CanRun(s, steps) && !s.awake && forall i :: 0 <= i < |steps| ==> !steps[i].Raise?
    ensures !Run(s, steps).awake && Run(s, steps).delivered == s.delivered
    decreases |steps|
  {
    if steps != [] {
      assert !Next(s, steps[0]).awake && Next(s, steps[0]).delivered == s.delivered by {
        hide Served, Written;
        assert !ByMachine(steps[0]) && !steps[0].Raise?;
      }
      SleepsUntilRaised(Next(s, steps[0]), steps[1..]);
    }
  }

  /** Line 1 is unmasked and raised; then the machine halts with the flag set, and sleeps with the line pending. */
  lemma HaltedWhilePending()
    ensures var steps := [Out(false, false, 0xFD), Raise(1), Sti(true)];
            && CanRun(CREATED, steps)
            && var r := Run(CREATED, steps); r.flag && Pending(r, 1) && !r.awake && r.delivered == [] && !Attended(r)
  {
    var r := Next(RAISED, Sti(true));
    assert 1 in r.master.irr;
    hide CanRun, Run, Next, Enabled;
    RunNothing(r);
    RunLonger(RAISED, Sti(true), [], r);
    TwoLonger([Sti(true)] + [], r);
    assert [Out(false, false, 0xFD)] + ([Raise(1)] + ([Sti(true)] + [])) == [Out(false, false, 0xFD), Raise(1), Sti(true)];
  }

  // ----- Order, and progress -----

  /** Whatever a run delivers, at any of its steps, is what has the highest priority at that moment. */
  lemma {:induction false} DeliveriesInOrder(s: Vm, steps: seq<Step>, i: nat)
    requires CanRun(s, steps) && Sound(s) && Cascade(s) && Orderly(s, steps) && i < |steps|
    ensures CanRun(s, steps[..i])
    ensures var t := Run(s, steps[..i]); Enabled(t, steps[i]) && (Delivers(t, steps[i]) ==> DeliversFirst(t, Next(t, steps[i])))
    decreases i
  {
    if i == 0 {
      if Delivers(s, steps[0]) {
        DeliveryIsFirst(s, steps[0]);
      }
    } else {
      var s1 := Next(s, steps[0]);
      hide Next, Cascade, Sound, Delivers, DeliversFirst;
      CascadeStep(s, steps[0]);
      StepKeepsSound(s, steps[0]);
      DeliveriesInOrder(s1, steps[1..], i - 1);
      assert steps[1..][..i - 1] == steps[..i][1..];
    }
  }

  /** Nothing is in service, the flag is set, the master listens and the machine runs. */
  predicate Ready(s: Vm) {
    s.awake && s.flag && s.master.isr == {} && s.master.state == Normal
  }

  /** The machine is returned to, ends the interrupt by command `eoi` and sets the flag again, as often as told. */
  function Rounds(k: nat, eoi: byte8): seq<Step> {
    if k == 0 then [] else [Hook(true, 0), Out(false, true, eoi), Sti(false)] + Rounds(k - 1, eoi)
  }

  lemma RoundServes(s: Vm)
    requires Sound(s) && Ready(s) && s.master.irr != {}
    ensures Enabled(s, Hook(true, 0)) && var r := Next(s, Hook(true, 0)); r == Served(s, 0).(hook := r.hook)
    ensures Served(s, 0).master.state == Normal
  {
    hide Lowest;
  }

  lemma RoundEnds(s: Vm, eoi: byte8)
    requires EndsInterrupt(eoi) && s.master.state == Normal && s.awake
    ensures Enabled(s, Out(false, true, eoi))
    ensures var r := Next(s, Out(false, true, eoi)); r == s.(master := s.master.(isr := {}), hook := r.hook)
  {
    PortFacts(s.master, true, eoi);
    EoiByValue(eoi);
  }

  lemma RoundSets(s: Vm)
    requires s.awake
    ensures Enabled(s, Sti(false)) && var r := Next(s, Sti(false)); r == s.(flag := true, hook := r.hook)
  {
  }

  lemma ServedShrinks(s: Vm, undefined: nat)
    requires Connected(s) && s.master.irr != {}
    ensures var r := Served(s, undefined); |r.master.irr| + |r.slave.irr| < |s.master.irr| + |s.slave.irr|
  {
    hide LowestFrom;
    var irq := Lowest(s.master.irr);
    if s.master.link == {irq} {
      assert irq in {s.slave.slaveLink};
      FewerLines(Served(s, undefined).master.irr, s.master.irr);
    }
  }

  lemma {:induction false} FewerLines(a: set<Line>, b: set<Line>)
    requires a <= b
    ensures |a| <= |b|
    decreases |a|
  {
    if i :| i in a {
      FewerLines(a - {i}, b - {i});
    }
  }

  lemma SamePending(s: Vm, r: Vm, l: nat)
    requires r.master.irr == s.master.irr && r.slave.irr == s.slave.irr
    ensures Pending(r, l) == Pending(s, l)
  {
  }

  lemma OneRound(s: Vm, eoi: byte8) returns (s1: Vm, s2: Vm, r: Vm)
    requires EndsInterrupt(eoi) && Sound(s) && Connected(s) && Ready(s) && s.master.irr != {}
    ensures Enabled(s, Hook(true, 0)) && s1 == Next(s, Hook(true, 0))
    ensures Enabled(s1, Out(false, true, eoi)) && s2 == Next(s1, Out(false, true, eoi))
    ensures Enabled(s2, Sti(false)) && r == Next(s2, Sti(false))
    ensures Sound(r) && Connected(r) && Ready(r) && r.slave.slaveLink == s.slave.slaveLink
    ensures |r.delivered| == |s.delivered| + 1 && |r.master.irr| + |r.slave.irr| < |s.master.irr| + |s.slave.irr|
    ensures forall l: nat :: Masked(r, l) == Masked(s, l)
    ensures forall l: nat :: l < 16 && l != s.slave.slaveLink && !Masked(s, l) ==>
              Count(r.delivered, l) + One(Pending(r, l)) == Count(s.delivered, l) + One(Pending(s, l))
  {
    hide Count, Served, Next, Pending;
    RoundServes(s);
    s1 := Next(s, Hook(true, 0));
    ServedKeeps(s, 0);
    ServedCascade(s, 0);
    ServedShrinks(s, 0);
    StepKeepsSound(s, Hook(true, 0));
    RoundEnds(s1, eoi);
    s2 := Next(s1, Out(false, true, eoi));
    StepKeepsSound(s1, Out(false, true, eoi));
    RoundSets(s2);
    r := Next(s2, Sti(false));
    StepKeepsSound(s2, Sti(false));
    forall l: nat | l < 16 && l != s.slave.slaveLink && !Masked(s, l)
      ensures Count(r.delivered, l) + One(Pending(r, l)) == Count(s.delivered, l) + One(Pending(s, l))
    {
      ServedConserves(s, 0, l);
      SamePending(Served(s, 0), r, l);
    }
  }

  /** From a state in which the master can be served, after at most as many rounds as there are bits pending nothing is:
      what was pending on unmasked lines was delivered, each line once. */
  lemma {:induction false} EverythingIsServed(s: Vm, eoi: byte8) returns (k: nat)
    requires EndsInterrupt(eoi) && Sound(s) && Connected(s) && Ready(s)
    ensures k <= |s.master.irr| + |s.slave.irr| && CanRun(s, Rounds(k, eoi))
    ensures var r := Run(s, Rounds(k, eoi));
            && r.master.irr == {} && r.slave.irr == {} && |r.delivered| == |s.delivered| + k
            && forall l: nat :: l < 16 && l != s.slave.slaveLink && !Masked(s, l) ==>
                 Count(r.delivered, l) == Count(s.delivered, l) + One(Pending(s, l))
    decreases |s.master.irr| + |s.slave.irr|
  {
    hide Next, Count, Served;
    if s.master.irr == {} {
      k := 0;
      NothingLeft(s, eoi);
    } else {
      var s1, s2, r1 := OneRound(s, eoi);
      var m := EverythingIsServed(r1, eoi);
      k := m + 1;
      hide Run, CanRun, Pending, Masked, Rounds, Cascade, Sound;
      RoundsLonger(s, s1, s2, r1, m, eoi);
    }
  }

  lemma NothingLeft(s: Vm, eoi: byte8)
    requires Cascade(s) && s.master.irr == {}
    ensures s.slave.irr == {} && CanRun(s, Rounds(0, eoi)) && Run(s, Rounds(0, eoi)) == s && forall l: nat :: !Pending(s, l)
  {
  }

  lemma RoundsLonger(s: Vm, s1: Vm, s2: Vm, r1: Vm, m: nat, eoi: byte8)
    requires Enabled(s, Hook(true, 0)) && s1 == Next(s, Hook(true, 0))
    requires Enabled(s1, Out(false, true, eoi)) && s2 == Next(s1, Out(false, true, eoi))
    requires Enabled(s2, Sti(false)) && r1 == Next(s2, Sti(false)) && CanRun(r1, Rounds(m, eoi))
    ensures CanRun(s, Rounds(m + 1, eoi)) && Run(s, Rounds(m + 1, eoi)) == Run(r1, Rounds(m, eoi))
  {
    hide Run, CanRun, Next;
    var r := Run(r1, Rounds(m, eoi));
    RunLonger(s2, Sti(false), Rounds(m, eoi), r);
    RunLonger(s1, Out(false, true, eoi), [Sti(false)] + Rounds(m, eoi), r);
    RunLonger(s, Hook(true, 0), [Out(false, true, eoi)] + ([Sti(false)] + Rounds(m, eoi)), r);
    assert Rounds(m + 1, eoi) == [Hook(true, 0)] + ([Out(false, true, eoi)] + ([Sti(false)] + Rounds(m, eoi)));
  }

  // ----- The source's form -----

  /** The machine as the kernel updates it; each method is one step. */
  class Machine {
    var master: Pic
    var slave: Pic
    /** The virtual interrupt flag. */
    var interruptFlag: bool
    /** `vpic_return_hook` is installed. */
    var hook: bool
    var hlted: bool
    /** The task of the machine can run. */
    var awake: bool
    ghost var delivered: seq<Delivery>

    ghost function Now(): Vm
      reads this
    {
      Vm(master, slave, interruptFlag, hook, hlted, awake, delivered)
    }

    ghost predicate Valid()
      reads this
    {
      Sound(Now())
    }

    /** `create_vpic`, and the flags of a new machine */
    constructor ()
      ensures Valid() && Now() == CREATED
    {
      master := Pic(8, ALL_LINES, {}, {}, false, Normal, false, {}, 0);
      slave := Pic(0x70, ALL_LINES, {}, {}, false, Normal, true, {}, 0);
      interruptFlag, hook, hlted, awake := false, false, false, true;
      delivered := [];
    }

    /** `BSF` */
    method LowestLine(s: set<Line>) returns (i: Line)
      requires s != {}
      ensures IsLowest(s, i) && i == Lowest(s)
    {
      i := 0;
      assert exists j :: j in s;
      while i !in s
        invariant forall j :: j in s ==> i <= j
        decreases 8 - i
      {
        i := i + 1;
      }
    }

    /** `simulate_vm_int`, as far as the flag goes; the hook stays. */
    method SimulateInt()
      requires Valid() && awake
      modifies this`interruptFlag
      ensures Valid() && Now() == Next(old(Now()), Int)
    {
      interruptFlag := false;
    }

    /** `vpic_return_hook` */
    method ReturnHook(toMachine: bool, undefined: nat)
      requires Valid() && hook && (toMachine ==> awake)
      modifies this
      ensures Valid() && Now() == Next(old(Now()), Hook(toMachine, undefined))
    {
      hide Lowest;
      StepKeepsSound(Now(), Hook(toMachine, undefined));
      if toMachine && interruptFlag && master.isr == {} && master.irr != {} {
        var irq := LowestLine(master.irr);
        master := master.(irr := master.irr - {irq}, isr := {irq});
        var vector;
        ghost var line;
        if master.link == {irq} {
          if slave.irr == {} {
            slave := slave.(isr := BitByte(undefined));
            vector, line := slave.base + undefined, NO_LINE;
          } else {
            var sirq := LowestLine(slave.irr);
            slave := slave.(irr := slave.irr - {sirq}, isr := {sirq});
            if slave.irr != {} {
              master := master.(irr := (master.irr + {slave.slaveLink}) - master.mask);
            }
            vector, line := slave.base + sirq, SlaveLine(sirq);
          }
        } else {
          vector, line := master.base + irq, irq;
        }
        delivered := delivered + [Delivery(line, vector)];
        interruptFlag := false;
      }
      if master.irr == {} {
        hook := false;
      }
    }

    method InstallReturnHook()
      modifies this`hook
      ensures Now() == Installed(old(Now()))
    {
      if interruptFlag && master.irr != {} {
        hook := true;
      }
    }

    /** `CLI` */
    method Clear()
      requires Valid() && awake
      modifies this`interruptFlag, this`hook
      ensures Valid() && Now() == Next(old(Now()), Cli)
    {
      interruptFlag := false;
      hook := false;
    }

    /** `STI`, taken together with a `HLT` that follows it */
    method Set(haltFollows: bool)
      requires Valid() && awake
      modifies this`interruptFlag, this`hook, this`hlted, this`awake
      ensures Valid() && Now() == Next(old(Now()), Sti(haltFollows))
    {
      interruptFlag := true;
      if haltFollows {
        Halt();
      }
      InstallReturnHook();
    }

    /** `POPF` and `IRET`, which pop the flag */
    method Pop(flag: bool)
      requires Valid() && awake
      modifies this`interruptFlag, this`hook
      ensures Valid() && Now() == Next(old(Now()), PopFlags(flag))
    {
      interruptFlag := flag;
      if flag {
        InstallReturnHook();
      } else {
        hook := false;
      }
    }

    /** `HLT` suspends the machine even if an interrupt could be delivered at once. */
    method Halt()
      requires awake
      modifies this`hlted, this`awake
      ensures Now() == Next(old(Now()), Hlt)
    {
      hlted := true;
      awake := false;
    }

    /** `simulate_irq` */
    method SimulateIrq(irq: nat)
      requires Valid() && irq < 16
      modifies this
      ensures Valid() && Now() == Next(old(Now()), Raise(irq))
    {
      StepKeepsSound(Now(), Raise(irq));
      if irq >= 8 {
        slave := slave.(irr := (slave.irr + {irq - 8}) - slave.mask);
        master := master.(irr := (master.irr + {slave.slaveLink}) - master.mask);
      } else {
        master := master.(irr := (master.irr + {irq}) - master.mask);
      }
      if interruptFlag {
        if hlted {
          awake := true;
          hlted := false;
        }
        hook := true;
      }
    }

    /** `set_mask` */
    method ChangeMask(on: bool, masterLines: set<Line>, slaveLines: set<Line>)
      requires Valid()
      modifies this`master, this`slave
      ensures Valid() && Now() == Next(old(Now()), SetMask(on, masterLines, slaveLines))
    {
      if on {
        master := master.(mask := master.mask + masterLines);
        slave := slave.(mask := slave.mask + slaveLines);
      } else {
        master := master.(mask := master.mask - masterLines);
        slave := slave.(mask := slave.mask - slaveLines);
      }
    }

    /** vpic.c:222-265 */
    static method WriteCommand(p: Pic, val: byte8) returns (pic: Pic, eoi: bool)
      ensures pic == PortOut(p, true, val) && (eoi <==> EffectiveEoi(p, val))
    {
      pic, eoi := p, false;
      if pic.state == Normal {
        if val & 0x10 != 0 {
          pic := pic.(state := WaitIcw2, needIcw4 := val & 1 != 0);
        } else if val & 0x18 == 0 {
          if val & 0xF8 == 0x20 || val & 0xF8 == 0x60 {
            pic := pic.(isr := {});
            eoi := true;
          }
        } else if val & 0x18 == 0x08 {
          if val & 0x02 != 0 {
            pic := pic.(state := if val & 1 != 0 then ReadIrr else ReadIsr);
          }
        }
      }
    }

    /** vpic.c:267-301 */
    static method WriteData(p: Pic, val: byte8) returns (pic: Pic)
      ensures pic == PortOut(p, false, val)
    {
      hide LinesOf;
      pic := p;
      if pic.state == Normal {
        pic := pic.(mask := LinesOf(val));
      } else if pic.state == WaitIcw2 {
        pic := pic.(base := (val & 7) as nat, state := WaitIcw3);
      } else if pic.state == WaitIcw3 {
        if pic.isSlave {
          pic := pic.(slaveLink := (val & 7) as nat);
        } else {
          pic := pic.(link := LinesOf(val));
        }
        pic := pic.(state := if pic.needIcw4 then WaitIcw4 else Normal);
      } else if pic.state == WaitIcw4 {
        pic := pic.(state := Normal);
      }
    }

    /** `vpic_out` for one byte; `command` tells the lower port of a controller from the higher. */
    method PortWrite(toSlave: bool, command: bool, val: byte8)
      requires Valid() && awake
      modifies this`master, this`slave, this`hook
      ensures Valid() && Now() == Next(old(Now()), Out(toSlave, command, val))
    {
      hide PortOut, EffectiveEoi, Sound;
      StepKeepsSound(Now(), Out(toSlave, command, val));
      var pic := if toSlave then slave else master;
      var eoi := false;
      if command {
        pic, eoi := WriteCommand(pic, val);
      } else {
        pic := WriteData(pic, val);
      }
      if toSlave {
        slave := pic;
      } else {
        master := pic;
      }
      if eoi {
        InstallReturnHook();
      }
    }

    /** `vpic_in` for one byte: the mask, or the register that was asked for, or nothing (-1). */
    method PortRead(fromSlave: bool, command: bool) returns (r: Option<set<Line>>)
      requires Valid() && awake
      modifies this`master, this`slave
      ensures Valid() && Now() == Next(old(Now()), In(fromSlave, command))
      ensures var p := if fromSlave then old(slave) else old(master);
              r == if !command then Some(p.mask) else if p.state == ReadIsr then Some(p.isr) else if p.state == ReadIrr then Some(p.irr) else None
    {
      var pic := if fromSlave then slave else master;
      r := None;
      if command {
        if pic.state == ReadIsr {
          r := Some(pic.isr);
        } else if pic.state == ReadIrr {
          r := Some(pic.irr);
        }
        pic := pic.(state := Normal);
      } else {
        r := Some(pic.mask);
      }
      if fromSlave {
        slave := pic;
      } else {
        master := pic;
      }
    }
  }
}

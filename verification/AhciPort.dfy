/**
 The command engine of an AHCI port (src/ahci.js): issued slots, the command being executed, queued
 commands, the link and hot plug, with completions that re-enter the engine.  The ATA device, the
 command structures in guest memory and the disk are partners that may do anything at any time.
 */
module AhciPort {
  import opened Options
  import Q = AhciQueue

  /** PxIS bits. */
  datatype StatusBit = DHRS | PSS | SDBS | OFS | IFS | HBFS | TFES

  /** PxTFD: error and status. */
  datatype TaskFile = TaskFile(error: nat, status: nat)

  /** The phase the device is in: busy, with a data block ready, or neither, possibly with an error. */
  datatype Phase = Busy | Drq | Ready(error: bool)

  /**
   The device: its phase, the data blocks it has at most before it changes phase, whether its current
   command is a PACKET or DMA command, and what queued commands need.
   */
  datatype Device = Device(phase: Phase, blocks: nat, packet: bool, dmaCommand: bool, atapi: bool, hasBuffer: bool)

  datatype Command = Command(slot: nat, dma: bool, dmaStarted: bool, packetSent: bool)

  /** What start_command finds in guest memory for a slot. */
  datatype Fetched =
    | Unreadable
    | NotRegisterFis
    | Control(srst: bool)
    | Queued(tag: nat, write: bool, inRange: bool, prdtHolds: bool)
    | NonQueued(dma: bool)

  const DET_DEVICE := 3
  const DET_OFFLINE := 4
  const IPM_ACTIVE := 1
  const IPM_PARTIAL := 2
  const IPM_SLUMBER := 6
  const NO_DEVICE_TASK_FILE := TaskFile(0, 0x7F)
  const ABRT := 0x04
  const IDNF := 0x10

  /** BSY and DRQ of a status byte. */
  function BusyBits(status: nat): (r: nat)
    ensures r in {0, 0x08, 0x80, 0x88}
  {
    (if status / 0x80 % 2 == 1 then 0x80 else 0) + (if status / 8 % 2 == 1 then 8 else 0)
  }

  /** An issued slot that waits, and what is in it. */
  datatype Waiter = Waiter(slot: nat, fetched: Fetched)

  predicate IsLowest(s: set<nat>, m: nat) {
    m in s && forall x :: x in s ==> m <= x
  }

  function Lowest(s: set<nat>): (m: nat)
    requires s != {}
    ensures IsLowest(s, m)
  {
    LowestExists(s);
    var m :| IsLowest(s, m);
    m
  }

  lemma {:induction false} LowestExists(s: set<nat>)
    requires s != {}
    ensures exists m :: IsLowest(s, m)
    decreases |s|
  {
    var a :| a in s;
    var rest := s - {a};
    assert s == rest + {a};
    if rest == {} {
      assert IsLowest(s, a);
    } else {
      LowestExists(rest);
      var m :| IsLowest(rest, m);
      assert IsLowest(s, if a <= m then a else m);
    }
  }

  /** PxCMD, PxSCTL and PCI bus mastering: what software configures. */
  datatype Config = Config(
    st: bool, fre: bool, alpe: bool, asp: bool, sctlDet: nat, noPartial: bool, noSlumber: bool, canDma: bool)

  /** The detection field of PxSSTS, and whether the signature of a reset device has yet to be posted. */
  datatype Link = Link(det: nat, initPending: bool) {
    predicate Up() {
      det == DET_DEVICE
    }
  }

  /** The first queued command that failed since the error log was read. */
  datatype NcqError = NcqError(tag: nat, error: nat)

  /** PxIS, PxTFD, the recorded NCQ error and the SRST bit. */
  datatype Report = Report(status: set<StatusBit>, tfd: TaskFile, ncqError: Option<NcqError>, srst: bool) {
    function With(bits: set<StatusBit>): Report {
      this.(status := status + bits)
    }
  }

  /** Only the first failure is recorded. */
  function FirstError(recorded: Option<NcqError>, tag: nat, error: nat): Option<NcqError> {
    if recorded.Some? then recorded else Some(NcqError(tag, error))
  }

  /** The non-queued command in execution with its slot; the slot is -1 without one. */
  datatype Execution = Execution(busySlot: int, command: Option<Command>)

  const IDLE := Execution(-1, None)

  function PacketLeft(run: Execution): nat {
    if run.command.Some? && !run.command.value.packetSent then 1 else 0
  }

  function DmaLeft(run: Execution): nat {
    if run.command.Some? && !run.command.value.dmaStarted then 1 else 0
  }

  function BlocksLeft(device: Option<Device>): nat {
    if device.Some? && device.value.phase.Drq? then 1 + device.value.blocks else 0
  }

  lemma {:induction false} SubsetSize(a: set<nat>, b: set<nat>)
    requires a <= b
    ensures |a| <= |b| && (a != b ==> |a| < |b|)
    decreases |b|
  {
    if x :| x in b && x !in a {
      SubsetSize(a, b - {x});
    } else {
      assert a == b;
    }
  }

  lemma {:induction false} OneLess(a: set<nat>, x: nat)
    requires x in a
    ensures a - {x} <= a && |a - {x}| < |a| && x !in a - {x}
  {
    SubsetSize(a - {x}, a);
  }

  /** The drive stays what it is, whatever it does. */
  predicate SameDrive(before: Option<Device>, after: Option<Device>) {
    match (before, after)
    case (Some(a), Some(b)) => a.atapi == b.atapi && a.hasBuffer == b.hasBuffer
    case (None, None) => true
    case _ => false
  }

  /** In a data phase a packet is sent first, then a DMA transfer is started once; else a block is moved. */
  function PhaseDone(run: Execution, d: Device): Execution
    requires run.command.Some?
  {
    var c := run.command.value;
    if d.packet && !c.packetSent then run.(command := Some(c.(packetSent := true)))
    else if c.dma && d.dmaCommand then run.(command := Some(c.(dmaStarted := true)))
    else run
  }

  /** The command has fewer phases left. */
  predicate LessLeft(run: Execution, device: Option<Device>, run': Execution, device': Option<Device>) {
    PacketLeft(run') < PacketLeft(run) ||
    (PacketLeft(run') == PacketLeft(run) &&
     (DmaLeft(run') < DmaLeft(run) || (DmaLeft(run') == DmaLeft(run) && BlocksLeft(device') < BlocksLeft(device))))
  }

  /** What software, the drive bay, the device and the disk do to a port. */
  datatype Event =
    | Issue(slots: set<nat>)
    | Announce(tags: set<nat>)
    | ClearStatus(bits: set<StatusBit>)
    | CommandRegister(st: bool, fre: bool, alpe: bool, asp: bool, icc: nat)
    | ControlRegister(det: nat, noPartial: bool, noSlumber: bool)
    | BusMaster(canDma: bool)
    | ControllerReset
    | Plug(drive: Device)
    | Unplug
    | DeviceEvent
    | DiskDone(job: Q.Job, prdtHolds: bool)

  /** After the event nothing that was accepted before it is in flight. */
  predicate Ends(e: Event) {
    match e
    case CommandRegister(st, _, _, _, _) => !st
    case ControlRegister(det, _, _) => det == 1
    case ControllerReset => true
    case Unplug => true
    case _ => false
  }

  const POWER_ON := Config(false, false, false, false, 0, false, false, false)

  /** What software has configured after an event. */
  function ConfigAfter(c: Config, e: Event): Config {
    match e
    case CommandRegister(st, fre, alpe, asp, _) => c.(st := st, fre := fre, alpe := alpe, asp := asp)
    case ControlRegister(det, noPartial, noSlumber) => c.(sctlDet := det, noPartial := noPartial, noSlumber := noSlumber)
    case BusMaster(canDma) => c.(canDma := canDma)
    case ControllerReset => POWER_ON.(canDma := c.canDma)
    case _ => c
  }

  function ConfigAfterAll(c: Config, events: seq<Event>): Config {
    if events == [] then c else ConfigAfter(ConfigAfterAll(c, events[..|events| - 1]), events[|events| - 1])
  }

  /** The drive of the port after an event. */
  function DriveAfter(drive: Option<Device>, e: Event): Option<Device> {
    match e
    case Plug(d) => if drive.None? then Some(d) else drive
    case Unplug => None
    case _ => drive
  }

  function DriveAfterAll(drive: Option<Device>, events: seq<Event>): Option<Device> {
    if events == [] then drive else DriveAfter(DriveAfterAll(drive, events[..|events| - 1]), events[|events| - 1])
  }

  class Port {
    /** The length of the device queue, or 0 if the controller does not queue. */
    const ncqDepth: nat
    var cfg: Config
    var link: Link
    /** PxSSTS.IPM */
    var ipm: nat
    var report: Report
    /** PxCI and PxSACT */
    var ci: set<nat>
    var sact: set<nat>
    /** Set by a failure, cleared with ST: the list does not move. */
    var halted: bool
    var run: Execution
    var advancing: bool
    var advanceAgain: bool
    var device: Option<Device>
    /** ncq_active, ncq_epoch and the pending disk I/O. */
    var queue: Q.Queue
    /** What has happened to the queue. */
    ghost var trace: seq<Q.Action>

    /** The queue is that of a run, so that all that holds of runs of queues holds of ports. */
    ghost predicate Queued()
      reads this`queue, this`trace
    {
      queue == Q.Run(Q.EMPTY, trace)
    }

    ghost predicate Valid()
      reads this
    {
      && Queued()
      // the slot being executed is that of the command, which is still issued and not halted
      && (run.busySlot == -1 <==> run.command.None?)
      && (run.command.Some? ==> run.busySlot == run.command.value.slot && run.busySlot in ci && !halted)
      // non-queued commands and queued ones exclude each other
      && (run.command.Some? ==> queue.active == {})
      // a stopped list has nothing issued, active or running
      && (!cfg.st ==> ci == {} && sact == {} && run.command.None? && queue.active == {})
      // without a device there is no link, no signature to send, and nothing active or running
      && (device.None? ==> link == Link(0, false) && run.command.None? && queue.active == {})
    }

    /** The guards of the loop of check_commands. */
    predicate CanStart()
      reads this
    {
      run.busySlot == -1 && !halted && cfg.st && ci != {} && link.Up() && !link.initPending && cfg.canDma
    }

    /** What is left to do: issued slots count twice, a list that is not halted once. */
    ghost function Work(): nat
      reads this`ci, this`halted
    {
      2 * |ci| + if halted then 0 else 1
    }

    /** The engine only consumes issued slots, and leaves a link in use alone. */
    twostate predicate Engine()
      reads this
    {
      && SameDrive(old(device), device) && advancing == old(advancing)
      && ci <= old(ci) && (old(halted) ==> halted) && Work() <= old(Work())
      && (ci != {} && old(ipm) == IPM_ACTIVE ==> ipm == IPM_ACTIVE)
      && old(queue).log <= queue.log && old(queue).epoch <= queue.epoch && old(trace) <= trace
    }

    // -------------------------------------------------------------------------
    // Small steps

    /** set_link_power */
    method SetLinkPower(power: nat)
      modifies this`ipm
      ensures ipm == if !link.Up() || (power == IPM_PARTIAL && cfg.noPartial) || (power == IPM_SLUMBER && cfg.noSlumber)
                     then old(ipm) else power
    {
      if !link.Up() || ipm == power || (power == IPM_PARTIAL && cfg.noPartial) || (power == IPM_SLUMBER && cfg.noSlumber) {
        return;
      }
      ipm := power;
    }

    /** idle_link_power: with ALPE, an idle port puts its link to sleep. */
    method IdleLinkPower()
      modifies this`ipm
      ensures ci != {} ==> ipm == old(ipm)
      ensures if cfg.alpe && cfg.st && ci == {} && sact == {} && run.busySlot == -1 && queue.active == {} && link.Up() then
                ipm == (if cfg.asp then (if cfg.noSlumber then old(ipm) else IPM_SLUMBER)
                        else if cfg.noPartial then old(ipm) else IPM_PARTIAL)
              else ipm == old(ipm)
    {
      if cfg.alpe && cfg.st && ci == {} && sact == {} && run.busySlot == -1 && queue.active == {} {
        SetLinkPower(if cfg.asp then IPM_SLUMBER else IPM_PARTIAL);
      }
    }

    /** A received FIS: the write to guest memory may fail (HBFS). */
    method PostFis()
      modifies this`report
      ensures report == old(report).(status := report.status) && old(report).status <= report.status
    {
      var fails: bool := *;
      if cfg.fre && fails {
        report := report.With({HBFS});
      }
    }

    /** post_d2h: PxTFD follows the device. */
    method PostD2h(interrupt: bool)
      requires device.Some?
      modifies this`report
      ensures old(report).status <= report.status && report.ncqError == old(report).ncqError && report.srst == old(report).srst
      ensures (interrupt ==> DHRS in report.status) && (device.value.phase == Ready(true) ==> TFES in report.status)
    {
      var error: nat, deviceStatus: nat := *, *;
      PostFis();
      report := report.(tfd := TaskFile(error, deviceStatus));
      if interrupt {
        report := report.With({DHRS});
      }
      if device.value.phase == Ready(true) {
        report := report.With({TFES});
      }
    }

    /** post_sdb: a set device bits FIS. */
    method PostSdb(error: nat, failed: bool, completed: set<nat>)
      modifies this`report, this`sact
      ensures sact == old(sact) - completed && old(report).status + {SDBS} <= report.status
      ensures (failed ==> TFES in report.status) && report.ncqError == old(report).ncqError && report.srst == old(report).srst
      ensures report.tfd == TaskFile(error, BusyBits(old(report).tfd.status) + if failed then 0x41 else 0x50)
    {
      PostFis();
      sact := sact - completed;
      report := report.(tfd := TaskFile(error, BusyBits(report.tfd.status) + if failed then 0x41 else 0x50)).With({SDBS});
      if failed {
        report := report.With({TFES});
      }
    }

    /** The queue takes a step. */
    method StepQueue(next: Q.Queue, ghost action: Q.Action)
      requires Queued() && next == Q.Step(queue, action)
      modifies this`queue, this`trace
      ensures Queued() && queue == next && trace == old(trace) + [action]
    {
      Q.RunAppend(Q.EMPTY, trace, action);
      queue, trace := next, trace + [action];
    }

    /** abort_command */
    method AbortCommand()
      requires Queued()
      modifies this`run, this`queue, this`trace
      ensures run == IDLE && queue == Q.Abort(old(queue)) && Queued() && old(trace) <= trace && Stale(old(queue))
    {
      Q.RunValid(trace);
      run := IDLE;
      StepQueue(Q.Abort(queue), Q.Stops);
    }

    /** host_bus_error */
    method HostBusError()
      requires Valid()
      modifies this`run, this`queue, this`trace, this`report, this`halted
      ensures Valid() && Engine() && halted && run == IDLE && report == old(report).With({HBFS}) && queue == Q.Abort(old(queue))
    {
      AbortCommand();
      report := report.With({HBFS});
      halted := true;
    }

    /** ncq_failed: the device drops every queued command, and the list halts; rest is the queue without the failed one. */
    method NcqFailed(rest: Q.Queue, tag: nat, error: nat, ghost action: Q.Action)
      requires Valid() && run == IDLE && Q.Step(queue, action) == Q.Fail(rest) && queue.log <= rest.log && rest.epoch == queue.epoch
      modifies this`report, this`queue, this`trace, this`sact, this`halted
      ensures Valid() && Engine() && halted && queue == Q.Fail(rest) && trace == old(trace) + [action]
      ensures report.ncqError == FirstError(old(report).ncqError, tag, error)
    {
      report := report.(ncqError := FirstError(report.ncqError, tag, error));
      StepQueue(Q.Fail(rest), action);
      PostSdb(error, true, {});
      halted := true;
    }

    // -------------------------------------------------------------------------
    // The engine

    /** The device runs a call to its end: any phase may follow, with finitely many data blocks. */
    method CallDevice()
      requires device.Some?
      modifies this`device
      ensures SameDrive(old(device), device)
    {
      var phase: Phase, blocks: nat, packet: bool, dmaCommand: bool := *, *, *, *;
      device := Some(device.value.(phase := phase, blocks := blocks, packet := packet, dmaCommand := dmaCommand));
    }

    /** The device takes or gives one data block: if another one follows, there is one less left. */
    method EndBlock()
      requires device.Some? && device.value.phase.Drq?
      modifies this`device
      ensures SameDrive(old(device), device) && BlocksLeft(device) < BlocksLeft(old(device))
    {
      var more: bool := *;
      if more && device.value.blocks > 0 {
        device := Some(device.value.(blocks := device.value.blocks - 1));
      } else {
        var phase: Phase := *;
        device := Some(device.value.(phase := if phase.Drq? then Busy else phase));
      }
    }

    /** The device's own reset: ready, without a command. */
    method DeviceReset()
      requires device.Some?
      modifies this`report, this`device
      ensures SameDrive(old(device), device) && device.value.phase == Ready(false) && report == old(report).(ncqError := None)
    {
      report := report.(ncqError := None);
      device := Some(device.value.(phase := Ready(false), packet := false, dmaCommand := false));
    }

    /**
     check_commands: execute issued commands as far as the port can.  A slot that waits is the lowest
     issued one, a non-queued command behind active tags.
     */
    method CheckCommands() returns (ghost waits: Option<Waiter>)
      requires Valid()
      modifies this`ipm, this`report, this`ci, this`sact, this`halted, this`run
      modifies this`advancing, this`advanceAgain, this`device, this`queue, this`trace
      ensures Valid() && Engine()
      ensures run.busySlot == -1 && !halted && cfg.st && ci != {} && link.det == DET_DEVICE && !link.initPending && cfg.canDma ==> waits.Some?
      ensures waits.Some? ==> ci != {} && IsLowest(ci, waits.value.slot) && waits.value.fetched.NonQueued? && queue.active != {}
      ensures old(halted) || old(run) != IDLE ==> ci == old(ci) && run == old(run) && queue == old(queue) && halted == old(halted)
      ensures !old(CanStart()) ==> report == old(report) && device == old(device)
      decreases Work(), 9
    {
      waits := None;
      if ci != {} && cfg.st {
        SetLinkPower(IPM_ACTIVE);
      }
      while CanStart()
        invariant Valid() && Engine() && waits.None?
        invariant CanStart() ==> ipm == IPM_ACTIVE
        invariant old(halted) || old(run) != IDLE ==> ci == old(ci) && run == old(run) && queue == old(queue) && halted == old(halted)
        invariant !old(CanStart()) ==> !CanStart() && report == old(report) && device == old(device)
        decreases |ci|, if CanStart() then 1 else 0
      {
        var before := ci;
        ghost var waiting, fetched := StartCommand(Lowest(ci));
        SubsetSize(ci, before);
        if ci == before && run.busySlot == -1 {
          waits := if waiting then Some(Waiter(Lowest(ci), fetched)) else None;
          break;
        }
      }
      IdleLinkPower();
    }

    /** What becomes of a slot, by what is in it. */
    twostate predicate Started(slot: nat, waiting: bool, fetched: Fetched)
      reads this
    {
      match fetched
      case Unreadable => ci == old(ci) && halted && run == IDLE && queue == Q.Abort(old(queue)) && HBFS in report.status
      case NotRegisterFis =>
        ci == old(ci) - {slot} && halted && run == IDLE && queue == old(queue) && trace == old(trace) && IFS in report.status
      case Control(srst) => slot !in ci && (old(ci) == {slot} ==> Controlled(srst))
      case Queued(tag, write, inRange, prdtHolds) => slot !in ci && QueuedStarted(tag, write, inRange, prdtHolds)
      case NonQueued(_) =>
        if old(queue).active != {} then
          && waiting && queue == old(queue) && trace == old(trace) && report == old(report) && device == old(device)
          && ci == old(ci) && run == old(run) && !halted
        else slot !in ci || halted || run.busySlot == slot
    }

    /** start_command: the lowest issued slot, on an active link; true: it waits for queued commands. */
    method StartCommand(slot: nat) returns (ghost waiting: bool, ghost fetched: Fetched)
      requires Valid() && ipm == IPM_ACTIVE && IsLowest(ci, slot)
      requires run.busySlot == -1 && !halted && cfg.st && ci != {} && link.det == DET_DEVICE && !link.initPending && cfg.canDma
      modifies this`ipm, this`report, this`ci, this`sact, this`halted, this`run
      modifies this`advancing, this`advanceAgain, this`device, this`queue, this`trace
      ensures Valid() && Engine()
      ensures ci == old(ci) ==> if run.busySlot == -1 then halted || waiting else run.busySlot == slot
      ensures waiting ==> ci == old(ci) && run == IDLE && queue.active != {} && fetched.NonQueued?
      ensures Started(slot, waiting, fetched)
      decreases Work(), 8
    {
      waiting := false;
      var found: Fetched := *;
      fetched := found;
      match found
      case Unreadable =>
        HostBusError();
      case NotRegisterFis =>
        SubsetSize(ci - {slot}, ci);
        ci := ci - {slot};
        report := report.With({IFS});
        halted := true;
      case Control(srst) =>
        DeviceControl(slot, srst);
      case Queued(tag, write, inRange, prdtHolds) =>
        StartQueued(slot, tag, write, inRange, prdtHolds);
      case NonQueued(dma) =>
        if queue.active != {} {
          waiting := true;
          return;
        }
        StartNonQueued(slot, dma);
    }

    /** A non-queued command occupies the port until it completes; READ LOG EXT may clear the NCQ error. */
    method StartNonQueued(slot: nat, dma: bool)
      requires Valid() && CanStart() && slot in ci && queue.active == {}
      modifies this`ipm, this`report, this`ci, this`sact, this`halted, this`run
      modifies this`advancing, this`advanceAgain, this`device, this`queue, this`trace
      ensures Valid() && Engine()
      ensures slot !in ci || halted || run.busySlot == slot
      decreases Work(), 7
    {
      run := Execution(slot, Some(Command(slot, dma, false, false)));
      var readsLog: bool := *;
      report := report.(tfd := TaskFile(report.tfd.error, 0x80), ncqError := if readsLog then None else report.ncqError);
      CallDevice();
      Advance();
    }

    /** The effect of a device control value: SRST makes the device busy, and resets it when it falls. */
    twostate predicate Controlled(srst: bool)
      reads this`device, this`report
    {
      && device.Some? && SameDrive(old(device), device) && report.srst == srst
      && (srst ==> device == old(device) && report.tfd.status == 0x80 && report.ncqError == old(report).ncqError)
      && (!srst && old(report).srst ==> device.value.phase == Ready(false) && report.ncqError == None && DHRS in report.status)
      && (!srst && !old(report).srst ==> device == old(device) && report == old(report))
    }

    /** A new device control value. */
    method SetDeviceControl(srst: bool)
      requires device.Some?
      modifies this`report, this`device
      ensures Controlled(srst)
    {
      if srst {
        report := report.(srst := true, tfd := TaskFile(report.tfd.error, 0x80));
      } else if report.srst {
        report := report.(srst := false);
        DeviceReset();
        PostD2h(true);
      }
    }

    /** device_control: the slot is done at once; if it is the only one, nothing else happens to the device. */
    method DeviceControl(slot: nat, srst: bool)
      requires Valid() && CanStart() && slot in ci
      modifies this`ipm, this`report, this`ci, this`sact, this`halted, this`run
      modifies this`advancing, this`advanceAgain, this`device, this`queue, this`trace
      ensures Valid() && Engine() && slot !in ci
      ensures old(ci) == {slot} ==> Controlled(srst)
      decreases Work(), 7
    {
      SubsetSize(ci - {slot}, ci);
      ci := ci - {slot};
      SetDeviceControl(srst);
      ghost var waits := CheckCommands();
    }

    /** The device can take a queued command at all: else it is aborted. */
    predicate CanQueue()
      reads this`device, this`report
    {
      ncqDepth > 0 && device.Some? && !device.value.atapi && device.value.hasBuffer && report.ncqError.None?
    }

    /** The slot of a queued command is free at once, and the device ready for more. */
    method TakeSlot(slot: nat)
      requires Valid() && CanStart() && slot in ci
      modifies this`ci, this`device, this`report
      ensures Valid() && Engine() && ci == old(ci) - {slot} && report.ncqError == old(report).ncqError
      ensures device.Some? && CanQueue() == old(CanQueue())
    {
      SubsetSize(ci - {slot}, ci);
      ci := ci - {slot};
      device := Some(device.value.(phase := Ready(false)));
      PostD2h(false);
    }

    /** The arrival of a queued command is what happens next to the queue; it may be refused, with its error. */
    twostate predicate QueuedStarted(tag: nat, write: bool, inRange: bool, prdtHolds: bool)
      reads this
    {
      old(device).Some? &&
      var d := old(device).value;
      var queues := ncqDepth > 0 && !d.atapi && d.hasBuffer && old(report).ncqError.None?;
      && old(trace) + [Q.Arrives(tag, write, queues && inRange && (write ==> prdtHolds))] <= trace
      && (!queues || tag in old(queue).active ==>
            halted && report.ncqError == FirstError(old(report).ncqError, tag, ABRT))
      && (queues && tag !in old(queue).active && !inRange ==> halted && report.ncqError == Some(NcqError(tag, IDNF)))
      && (queues && tag !in old(queue).active && inRange && write && !prdtHolds ==>
            halted && report.ncqError == Some(NcqError(tag, ABRT)))
    }

    /**
     start_queued: accepted if the device queues, the tag is free, the range is on the disk and the data
     of a write can be read; the disk may be done with it before this returns.
     */
    method StartQueued(slot: nat, tag: nat, write: bool, inRange: bool, prdtHolds: bool)
      requires Valid() && CanStart() && slot in ci
      modifies this`ipm, this`report, this`ci, this`sact, this`halted, this`run
      modifies this`advancing, this`advanceAgain, this`device, this`queue, this`trace
      ensures Valid() && Engine() && slot !in ci
      ensures QueuedStarted(tag, write, inRange, prdtHolds)
      decreases Work(), 7
    {
      TakeSlot(slot);
      ghost var action := Q.Arrives(tag, write, CanQueue() && inRange && (write ==> prdtHolds));
      if !CanQueue() || tag in queue.active {
        NcqFailed(queue, tag, ABRT, action);
      } else if !inRange {
        NcqFailed(queue, tag, IDNF, action);
      } else if write && !prdtHolds {
        report := report.With({OFS});
        NcqFailed(queue, tag, ABRT, action);
      } else {
        AcceptQueued(tag, write, prdtHolds);
      }
    }

    /** A queued command with a free tag waits for its disk I/O, if that is not over at once. */
    method AcceptQueued(tag: nat, write: bool, prdtHolds: bool)
      requires Valid() && run == IDLE && cfg.st && device.Some? && tag !in queue.active
      modifies this`ipm, this`report, this`ci, this`sact, this`halted, this`run
      modifies this`advancing, this`advanceAgain, this`device, this`queue, this`trace
      ensures Valid() && Engine()
      ensures old(trace) + [Q.Arrives(tag, write, true)] <= trace
      decreases Work(), 12
    {
      var (accepted, job) := Q.Accept(queue, tag, write);
      StepQueue(accepted, Q.Arrives(tag, write, true));
      var atOnce: bool := *;
      if atOnce {
        FinishJob(job, prdtHolds);
      }
    }

    /** The disk I/O of a queued command is over: a job of an older generation changes nothing. */
    method FinishJob(job: Q.Job, prdtHolds: bool)
      requires Valid() && job in queue.pending
      modifies this`ipm, this`report, this`ci, this`sact, this`halted, this`run
      modifies this`advancing, this`advanceAgain, this`device, this`queue, this`trace
      ensures Valid() && Engine()
      ensures job.epoch != old(queue).epoch ==>
                && queue == Q.Take(old(queue), job) && ci == old(ci) && sact == old(sact) && report == old(report)
                && run == old(run) && halted == old(halted) && ipm == old(ipm) && device == old(device)
      ensures old(trace) + [Q.Finishes(job, prdtHolds)] <= trace
      ensures job.epoch == old(queue).epoch && (job.write || prdtHolds) ==>
                old(queue).log + (if job.write then [] else [Q.Data(job.id)]) + [Q.Completed(job.id, job.tag)] <= queue.log
      ensures job.epoch == old(queue).epoch && !job.write && !prdtHolds ==>
                halted && queue.active == {} && queue.log == old(queue).log + [Q.Failed]
      decreases Work(), 11
    {
      ghost var action := Q.Finishes(job, prdtHolds);
      Q.RunValid(trace);
      if job.epoch != queue.epoch {
        StepQueue(Q.Take(queue, job), action);
        return;
      }
      var rest := Q.Take(queue, job);
      if !job.write && !prdtHolds {
        report := report.With({OFS});
        NcqFailed(rest, job.tag, ABRT, action);
        return;
      }
      QueuedDone(if job.write then rest else Q.Deliver(rest, job), job, action);
    }

    /** A set device bits FIS frees the tag; rest is the queue without the job. */
    method CompleteJob(rest: Q.Queue, job: Q.Job, ghost action: Q.Action)
      requires Valid() && run == IDLE && Q.Step(queue, action) == Q.Complete(rest, job)
      requires rest.active == queue.active && rest.epoch == queue.epoch && queue.log <= rest.log
      modifies this`report, this`sact, this`queue, this`trace
      ensures Valid() && Engine() && queue == Q.Complete(rest, job) && sact == old(sact) - {job.tag}
      ensures trace == old(trace) + [action]
    {
      StepQueue(Q.Complete(rest, job), action);
      PostSdb(0, false, {job.tag});
    }

    /** queued_done */
    method QueuedDone(rest: Q.Queue, job: Q.Job, ghost action: Q.Action)
      requires Valid() && run == IDLE && Q.Step(queue, action) == Q.Complete(rest, job)
      requires rest.active == queue.active && rest.epoch == queue.epoch && queue.log <= rest.log
      modifies this`ipm, this`report, this`ci, this`sact, this`halted, this`run
      modifies this`advancing, this`advanceAgain, this`device, this`queue, this`trace
      ensures Valid() && Engine()
      ensures old(trace) + [action] <= trace && rest.log + [Q.Completed(job.id, job.tag)] <= queue.log
      decreases Work(), 10
    {
      CompleteJob(rest, job, action);
      ghost var waits := CheckCommands();
    }

    /** advance: runs the phases of the command in execution; a call from inside one only asks for another turn. */
    method Advance()
      requires Valid()
      modifies this`ipm, this`report, this`ci, this`sact, this`halted, this`run
      modifies this`advancing, this`advanceAgain, this`device, this`queue, this`trace
      ensures Valid() && Engine()
      ensures run.busySlot == old(run).busySlot || old(run).busySlot !in ci || halted
      decreases Work(), 6
    {
      if advancing {
        advanceAgain := true;
        return;
      }
      advancing := true;
      advanceAgain := true;
      AdvanceLoop();
      advancing := false;
    }

    /** Phase after phase, as long as there is more to do now. */
    method AdvanceLoop()
      requires Valid() && advancing
      modifies this`ipm, this`report, this`ci, this`sact, this`halted, this`run
      modifies this`advancing, this`advanceAgain, this`device, this`queue, this`trace
      ensures Valid() && Engine()
      ensures run.busySlot == old(run).busySlot || old(run).busySlot !in ci || halted
      decreases Work(), 5, 1
    {
      while advanceAgain
        invariant Valid() && Engine()
        invariant run.busySlot == old(run).busySlot || old(run).busySlot !in ci || halted
        decreases advanceAgain, Work(), PacketLeft(run), DmaLeft(run), BlocksLeft(device)
      {
        advanceAgain := false;
        AdvanceOnce();
      }
    }

    /** One phase of the current command; advanceAgain: there is more to do now. */
    method AdvanceOnce()
      requires Valid() && advancing && !advanceAgain
      modifies this`ipm, this`report, this`ci, this`sact, this`halted, this`run
      modifies this`advancing, this`advanceAgain, this`device, this`queue, this`trace
      ensures Valid() && Engine()
      ensures run.busySlot == old(run).busySlot || old(run).busySlot !in ci || halted
      ensures advanceAgain && Work() == old(Work()) ==> LessLeft(old(run), old(device), run, device)
      ensures old(run).command.None? || old(device).value.phase.Busy? ==>
                run == old(run) && ci == old(ci) && device == old(device) && report == old(report) && queue == old(queue) && !advanceAgain
      ensures old(run).command.Some? && old(device).value.phase.Drq? ==>
                && ci == old(ci) && (halted ==> run == IDLE && HBFS in report.status)
                && (!halted ==> run == PhaseDone(old(run), old(device).value))
      ensures old(run).command.Some? && old(device).value.phase.Ready? ==>
                if old(device).value.phase.error then halted && ci == old(ci) && run == IDLE else old(run).busySlot !in ci
      decreases Work(), 5, 0
    {
      if run.command.None? {
        return;
      }
      var command, d := run.command.value, device.value;
      if d.phase.Busy? {
        return;
      }
      if d.phase.Drq? {
        if d.packet && !command.packetSent {
          SendPacket();
        } else if command.dma && d.dmaCommand {
          if !command.dmaStarted {
            run := run.(command := Some(command.(dmaStarted := true)));
            CallDevice();
            advanceAgain := true;
          }
        } else {
          TransferBlock();
        }
        return;
      }
      CompleteCommand();
    }

    /** The packet phase: the device gets its command block and goes on by itself. */
    method SendPacket()
      requires Valid() && run.command.Some? && !run.command.value.packetSent
      modifies this`report, this`halted, this`run, this`advanceAgain, this`device, this`queue, this`trace
      ensures Valid() && Engine() && (run.busySlot == old(run).busySlot || halted)
      ensures halted || LessLeft(old(run), old(device), run, device)
      ensures halted ==> Work() < old(Work()) && run == IDLE && HBFS in report.status
      ensures !halted ==> run == old(run).(command := Some(old(run).command.value.(packetSent := true)))
    {
      run := run.(command := Some(run.command.value.(packetSent := true)));
      var readable: bool := *;
      if !readable {
        HostBusError();
        return;
      }
      CallDevice();
      advanceAgain := true;
    }

    /** transfer_block: one data block; a PRDT that does not hold it ends the command with an error. */
    method TransferBlock()
      requires Valid() && run.command.Some? && device.Some? && device.value.phase.Drq?
      modifies this`report, this`advanceAgain, this`device
      ensures Valid() && Engine() && advanceAgain && BlocksLeft(device) < BlocksLeft(old(device))
    {
      var prdtHolds: bool, interrupt: bool := *, *;
      if !prdtHolds {
        report := report.With({OFS});
        device := Some(device.value.(phase := Ready(true)));
      } else {
        EndBlock();
        if !run.command.value.dma {
          PostFis();
          var error: nat, endStatus: nat := *, *;
          report := report.(tfd := TaskFile(error, endStatus)).With(if interrupt then {PSS} else {});
        }
      }
      advanceAgain := true;
    }

    /** The end of the command in progress, before other commands are looked at. */
    method EndCommand()
      requires Valid() && run.command.Some? && device.value.phase.Ready?
      modifies this`report, this`ci, this`halted, this`run
      ensures Valid() && Engine() && Work() < old(Work()) && run == IDLE
      ensures if device.value.phase.error then halted && ci == old(ci) else old(run).busySlot !in ci
    {
      var slot := run.busySlot;
      run := IDLE;
      PostD2h(true);
      if device.value.phase.error {
        halted := true;
      } else {
        OneLess(ci, slot);
        ci := ci - {slot};
      }
    }

    /** complete_command: without an error the slot leaves PxCI, with one it stays there and the list halts. */
    method CompleteCommand()
      requires Valid() && run.command.Some? && device.value.phase.Ready?
      modifies this`ipm, this`report, this`ci, this`sact, this`halted, this`run
      modifies this`advancing, this`advanceAgain, this`device, this`queue, this`trace
      ensures Valid() && Engine() && Work() < old(Work())
      ensures if old(device).value.phase.error then halted && ci == old(ci) && run == IDLE else old(run).busySlot !in ci
      decreases Work(), 4
    {
      EndCommand();
      ghost var waits := CheckCommands();
    }

    // -------------------------------------------------------------------------
    // What happens to a port from outside

    /** No call of the engine is under way. */
    predicate Quiet()
      reads this`advancing
    {
      !advancing
    }

    /** send_init_d2h: posts the signature of a reset device as soon as FRE is set. */
    method SendInitD2h()
      requires device.None? ==> !link.initPending
      modifies this`link, this`report
      ensures link == old(link).(initPending := old(link).initPending && !cfg.fre)
      ensures report.srst == old(report).srst && report.ncqError == old(report).ncqError
      ensures old(link).initPending && cfg.fre ==> DHRS in report.status
      ensures !(old(link).initPending && cfg.fre) ==> report == old(report)
    {
      if !link.initPending || !cfg.fre {
        return;
      }
      link := link.(initPending := false);
      PostD2h(true);
    }

    /** link_reset: everything in flight is dropped, and the link is up afterwards exactly with a device. */
    method LinkReset()
      requires Queued() && (!cfg.st ==> ci == {} && sact == {})
      modifies this`link, this`ipm, this`report, this`run, this`queue, this`trace, this`device
      ensures Valid() && queue == Q.Abort(old(queue)) && Stale(old(queue)) && run == IDLE && SameDrive(old(device), device) && old(trace) <= trace
      ensures if device.Some? then link.Up() && ipm == IPM_ACTIVE else link == Link(0, false) && ipm == 0
      ensures !report.srst && (device.Some? ==> device.value.phase == Ready(false) && report.ncqError == None)
      ensures device.None? || !cfg.fre ==> report.tfd == NO_DEVICE_TASK_FILE && report.status == old(report).status
      ensures device.Some? ==> (link.initPending <==> !cfg.fre)
    {
      report := report.(tfd := NO_DEVICE_TASK_FILE, srst := false);
      AbortCommand();
      BringUp();
    }

    /** The link comes up with a device, which is reset and then posts its signature. */
    method BringUp()
      requires Queued() && run == IDLE && queue.active == {} && (!cfg.st ==> ci == {} && sact == {}) && !report.srst
      modifies this`link, this`ipm, this`report, this`device
      ensures Valid() && SameDrive(old(device), device)
      ensures if device.Some? then link.Up() && ipm == IPM_ACTIVE else link == Link(0, false) && ipm == 0
      ensures !report.srst && (device.Some? ==> device.value.phase == Ready(false) && report.ncqError == None)
      ensures device.None? || !cfg.fre ==> report.tfd == old(report).tfd && report.status == old(report).status
      ensures device.Some? ==> (link.initPending <==> !cfg.fre)
    {
      if device.Some? {
        DeviceReset();
        link, ipm := Link(DET_DEVICE, true), IPM_ACTIVE;
        SendInitD2h();
      } else {
        link, ipm := Link(0, false), 0;
      }
    }

    /** reset: the port returns to its reset state, and its link is reset. */
    method Reset()
      requires Queued()
      modifies this`cfg, this`link, this`ipm, this`report, this`ci, this`sact, this`halted, this`run, this`queue, this`trace, this`device
      ensures Valid() && Stale(old(queue)) && cfg == POWER_ON.(canDma := old(cfg).canDma) && ci == {} && sact == {} && !halted
      ensures SameDrive(old(device), device) && old(trace) <= trace
      ensures report.status == {} && report.tfd == NO_DEVICE_TASK_FILE && !report.srst
    {
      report := report.(status := {});
      cfg := POWER_ON.(canDma := cfg.canDma);
      ci, sact, halted := {}, {}, false;
      AbortCommand();
      LinkReset();
    }

    /** No job that was pending before can complete any more, and nothing was posted meanwhile. */
    ghost predicate Stale(before: Q.Queue)
      reads this`queue
    {
      && queue.active == {} && queue.log == before.log && before.epoch < queue.epoch
      && forall j :: j in before.pending ==> j.epoch < queue.epoch
    }

    constructor (drive: Option<Device>, ncqDepth: nat)
      ensures this.ncqDepth == ncqDepth
      ensures Valid() && Quiet() && queue.log == [] && queue.nextId == 0 && cfg == POWER_ON && SameDrive(drive, device)
    {
      this.ncqDepth := ncqDepth;
      cfg := POWER_ON;
      link, ipm, report := Link(0, false), 0, Report({}, NO_DEVICE_TASK_FILE, None, false);
      ci, sact, halted, run := {}, {}, false, IDLE;
      advancing, advanceAgain, device, queue, trace := false, false, drive, Q.EMPTY, [];
      new;
      LinkReset();
    }

    /** Software writes PxCI: slots are issued. */
    method WriteCi(slots: set<nat>) returns (ghost waits: Option<Waiter>)
      requires Valid() && Quiet()
      modifies this
      ensures Valid() && Quiet() && old(trace) <= trace && cfg == old(cfg) && SameDrive(old(device), device)
      ensures if cfg.st then ci <= old(ci) + slots else ci == {}
      ensures cfg.st && (old(halted) || old(run) != IDLE) ==> ci == old(ci) + slots && run == old(run)
      ensures run.busySlot == -1 && !halted && cfg.st && ci != {} && link.det == DET_DEVICE && !link.initPending && cfg.canDma ==> waits.Some?
      ensures waits.Some? ==> ci != {} && IsLowest(ci, waits.value.slot) && waits.value.fetched.NonQueued? && queue.active != {}
    {
      waits := None;
      if cfg.st {
        ci := ci + slots;
        waits := CheckCommands();
      }
    }

    /** Software writes PxSACT: tags are announced. */
    method WriteSact(tags: set<nat>)
      requires Valid() && Quiet()
      modifies this`sact
      ensures Valid() && Quiet() && sact == if cfg.st then old(sact) + tags else old(sact)
    {
      if cfg.st {
        sact := sact + tags;
      }
    }

    /** PxCMD takes its value; a low power request counts on an idle device only; clearing ST drops all commands. */
    method SetCommand(st: bool, fre: bool, alpe: bool, asp: bool, icc: nat)
      requires Valid() && Quiet()
      modifies this`cfg, this`ipm, this`ci, this`sact, this`halted, this`run, this`queue, this`trace
      ensures Valid() && cfg == old(cfg).(st := st, fre := fre, alpe := alpe, asp := asp)
      ensures old(cfg).st && !st ==> Stale(old(queue)) && ci == {} && sact == {}
      ensures !old(cfg).st || st ==> queue == old(queue) && ci == old(ci) && run == old(run) && halted == old(halted)
      ensures old(trace) <= trace
    {
      var before := cfg;
      cfg := cfg.(st := st, fre := fre, alpe := alpe, asp := asp);
      if icc == IPM_ACTIVE {
        SetLinkPower(IPM_ACTIVE);
      } else if (icc == IPM_PARTIAL || icc == IPM_SLUMBER) && run.busySlot == -1 && queue.active == {} {
        SetLinkPower(icc);
      }
      if before.st && !st {
        ci, sact, halted := {}, {}, false;
        AbortCommand();
      }
    }

    /** Software writes PxCMD: ST, FRE, ALPE, ASP and an interface power request. */
    method WriteCommand(st: bool, fre: bool, alpe: bool, asp: bool, icc: nat)
      requires Valid() && Quiet()
      modifies this
      ensures Valid() && Quiet() && old(trace) <= trace && cfg == old(cfg).(st := st, fre := fre, alpe := alpe, asp := asp)
      ensures old(cfg).st && !st ==> Stale(old(queue)) && ci == {} && sact == {}
      ensures !old(cfg).st && !st ==> queue == old(queue)
      ensures SameDrive(old(device), device)
    {
      var before := cfg;
      SetCommand(st, fre, alpe, asp, icc);
      if fre && !before.fre {
        SendInitD2h();
      }
      if st && !before.st {
        halted := false;
        ghost var waits := CheckCommands();
      }
      IdleLinkPower();
    }

    /** Software writes PxSCTL: DET and the power states it does not allow. */
    method WriteSctl(det: nat, noPartial: bool, noSlumber: bool)
      requires Valid() && Quiet()
      modifies this`cfg, this`link, this`ipm, this`report, this`run, this`queue, this`trace, this`device
      ensures old(trace) <= trace && cfg == old(cfg).(sctlDet := det, noPartial := noPartial, noSlumber := noSlumber)
      ensures SameDrive(old(device), device)
      ensures Valid() && Quiet() && (det == 1 || (old(cfg).sctlDet == 1 && det == 0) ==> Stale(old(queue)) && run == IDLE)
      ensures det == 1 ==> link.det == 0
      ensures det == 4 ==> link.det == (if device.Some? then DET_OFFLINE else 0) && run == old(run) && queue == old(queue)
    {
      var before := cfg.sctlDet;
      cfg := cfg.(sctlDet := det, noPartial := noPartial, noSlumber := noSlumber);
      if det == 1 {
        link, ipm := link.(det := 0), 0;
        AbortCommand();
      } else if before == 1 && det == 0 {
        LinkReset();
      } else if det == 4 {
        link, ipm := link.(det := if device.Some? then DET_OFFLINE else 0), 0;
      }
    }

    /** Bus mastering or the decode of an upstream bridge changes. */
    method BusMasterChanged(canDma: bool) returns (ghost waits: Option<Waiter>)
      requires Valid() && Quiet()
      modifies this
      ensures Valid() && Quiet() && old(trace) <= trace && cfg == old(cfg).(canDma := canDma) && SameDrive(old(device), device)
      ensures run.busySlot == -1 && !halted && cfg.st && ci != {} && link.det == DET_DEVICE && !link.initPending && cfg.canDma ==> waits.Some?
      ensures waits.Some? ==> ci != {} && IsLowest(ci, waits.value.slot) && waits.value.fetched.NonQueued? && queue.active != {}
    {
      cfg := cfg.(canDma := canDma);
      waits := CheckCommands();
    }

    /** Hot plug: a drive is attached to a free port. */
    method Attach(drive: Device)
      requires Valid() && Quiet() && device.None?
      modifies this`link, this`ipm, this`report, this`run, this`queue, this`trace, this`device
      ensures Valid() && Quiet() && SameDrive(Some(drive), device) && old(trace) <= trace
      ensures if cfg.sctlDet == 4 then link.det == DET_OFFLINE else if cfg.sctlDet == 1 then link == old(link) else link.Up()
    {
      device := Some(drive);
      if cfg.sctlDet == 4 {
        link, ipm := link.(det := DET_OFFLINE), 0;
      } else if cfg.sctlDet != 1 {
        LinkReset();
      }
    }

    /** Hot plug: the drive is removed, and no pending job can complete any more. */
    method Detach()
      requires Valid() && Quiet() && device.Some?
      modifies this`link, this`ipm, this`report, this`run, this`queue, this`trace, this`device
      ensures Valid() && Quiet() && device.None? && Stale(old(queue)) && run == IDLE && !link.Up() && old(trace) <= trace
    {
      device := None;
      LinkReset();
    }

    /** The device's own disk I/O is over, and it signals that (push_irq). */
    method DeviceReady()
      requires Valid() && Quiet() && device.Some?
      modifies this
      ensures Valid() && Quiet() && old(trace) <= trace && cfg == old(cfg) && SameDrive(old(device), device)
    {
      CallDevice();
      Advance();
    }

    /** The event stops the list, or is a COMRESET, a reset or a removal. */
    predicate Stops(e: Event)
      reads this`cfg, this`device
    {
      match e
      case CommandRegister(st, _, _, _, _) => cfg.st && !st
      case Unplug => device.Some?
      case _ => Ends(e)
    }

    /** Software writes PxIS, or clears the errors that it shows. */
    method ClearBits(bits: set<StatusBit>)
      requires Valid() && Quiet()
      modifies this`report
      ensures Valid() && Quiet() && report == old(report).(status := old(report).status - bits)
    {
      report := report.(status := report.status - bits);
    }

    /** Software writes a register of the port. */
    method WriteRegister(e: Event)
      requires Valid() && Quiet() && (e.Issue? || e.Announce? || e.ClearStatus? || e.CommandRegister? || e.ControlRegister?)
      modifies this
      ensures Valid() && Quiet() && old(trace) <= trace
      ensures cfg == ConfigAfter(old(cfg), e) && SameDrive(old(device), device)
      ensures old(Stops(e)) ==> old(queue).epoch < queue.epoch
      ensures Ends(e) ==> queue.log == old(queue).log && queue.active == {}
    {
      match e
      case Issue(slots) => ghost var waits := WriteCi(slots);
      case Announce(tags) => WriteSact(tags);
      case ClearStatus(bits) => ClearBits(bits);
      case CommandRegister(st, fre, alpe, asp, icc) => WriteCommand(st, fre, alpe, asp, icc);
      case ControlRegister(det, noPartial, noSlumber) => WriteSctl(det, noPartial, noSlumber);
    }

    /** One event; those that cannot happen now are skipped. */
    method Happen(e: Event)
      requires Valid() && Quiet()
      modifies this
      ensures Valid() && Quiet() && old(trace) <= trace
      ensures cfg == ConfigAfter(old(cfg), e) && SameDrive(DriveAfter(old(device), e), device)
      ensures old(Stops(e)) ==> old(queue).epoch < queue.epoch
      ensures Ends(e) ==> queue.log == old(queue).log && queue.active == {}
    {
      match e
      case BusMaster(canDma) => ghost var waits := BusMasterChanged(canDma);
      case ControllerReset => Reset();
      case Plug(drive) =>
        if device.None? {
          Attach(drive);
        }
      case Unplug =>
        if device.Some? {
          Detach();
        }
      case DeviceEvent =>
        if device.Some? {
          DeviceReady();
        }
      case DiskDone(job, prdtHolds) =>
        if job in queue.pending {
          FinishJob(job, prdtHolds);
        }
      case _ => WriteRegister(e);
    }

    /**
     Whatever happens to a port and in whatever order: its invariants hold, a job whose generation is over
     puts nothing into guest memory any more, and from the moment on at which the generation
     changes, for whatever reason, that is so for every job accepted before the events.
     */
    method RunEvents(events: seq<Event>)
      requires Valid() && Quiet()
      modifies this
      ensures Valid() && Quiet() && Q.Valid(queue) && Q.Served(queue) && old(trace) <= trace && old(queue).log <= queue.log
      ensures cfg == ConfigAfterAll(old(cfg), events) && SameDrive(DriveAfterAll(old(device), events), device)
      ensures forall id: nat :: Q.Dead(old(queue), id) ==> Q.Dead(queue, id) && Q.Silent(queue.log, |old(queue).log|, id)
      ensures Outlived(old(queue), old(trace), queue, trace)
    {
      var i := 0;
      while i < |events|
        invariant 0 <= i <= |events| && Valid() && Quiet() && old(trace) <= trace
        invariant cfg == ConfigAfterAll(old(cfg), events[..i])
        invariant SameDrive(DriveAfterAll(old(device), events[..i]), device)
      {
        assert events[..i + 1][..i] == events[..i];
        Happen(events[i]);
        i := i + 1;
      }
      assert events[..i] == events;
      AllDeadForever(old(queue), old(trace), queue, trace);
      OldGenerations(old(queue), old(trace), queue, trace);
      Q.RunServed(trace);
    }

    /**
     An event and all that happens after it: once the list is stopped, the port is reset or gets a COMRESET,
     or the drive is removed, no job accepted before has data or a completion posted, from that event on.
     */
    method GoOn(event: Event, after: seq<Event>)
      requires Valid() && Quiet()
      modifies this
      ensures Valid() && Quiet() && Q.Valid(queue) && Q.Served(queue) && old(trace) <= trace && old(queue).log <= queue.log
      ensures cfg == ConfigAfterAll(old(cfg), [event] + after)
      ensures SameDrive(DriveAfterAll(old(device), [event] + after), device)
      ensures event.ControllerReset? || event.Unplug? || (event.ControlRegister? && event.det == 1)
              || (event.CommandRegister? && !event.st) ==>
                forall id :: 0 <= id < old(queue).nextId ==> Q.Dead(queue, id) && Q.Silent(queue.log, |old(queue).log|, id)
    {
      Happen(event);
      ghost var now := device;
      if Ends(event) {
        NothingActive(old(queue), old(trace), queue, trace);
      }
      RunEvents(after);
      AllDeadForever(old(queue), old(trace), queue, trace);
      EventsSplit(old(cfg), old(device), event, after);
      SameDriveAfter(DriveAfter(old(device), event), now, after);
    }
  }

  /** An event, and then others. */
  lemma {:induction false} EventsSplit(c: Config, drive: Option<Device>, event: Event, after: seq<Event>)
    ensures ConfigAfterAll(c, [event] + after) == ConfigAfterAll(ConfigAfter(c, event), after)
    ensures DriveAfterAll(drive, [event] + after) == DriveAfterAll(DriveAfter(drive, event), after)
    decreases |after|
  {
    var all := [event] + after;
    if after == [] {
      assert all == [event] && all[..0] == [];
    } else {
      var n := |after| - 1;
      assert all[..|all| - 1] == [event] + after[..n];
      EventsSplit(c, drive, event, after[..n]);
    }
  }

  lemma {:induction false} SameDriveAfter(a: Option<Device>, b: Option<Device>, events: seq<Event>)
    requires SameDrive(a, b)
    ensures SameDrive(DriveAfterAll(a, events), DriveAfterAll(b, events))
  {
    if events != [] {
      SameDriveAfter(a, b, events[..|events| - 1]);
    }
  }

  /** A queue that goes on from another: what was dead stays silent. */
  lemma {:induction false} AllDeadForever(q: Q.Queue, t: seq<Q.Action>, r: Q.Queue, u: seq<Q.Action>)
    requires q == Q.Run(Q.EMPTY, t) && r == Q.Run(Q.EMPTY, u) && t <= u
    ensures q.log <= r.log && Q.Valid(r)
    ensures forall id: nat :: Q.Dead(q, id) ==> Q.Dead(r, id) && Q.Silent(r.log, |q.log|, id)
  {
    var n := |t|;
    assert u[..n] == t;
    Q.RunValid(t);
    Q.RunValid(u);
    Q.RunFrom(Q.EMPTY, n, u);
    Q.LogGrows(q, u[n..]);
    forall id: nat | Q.Dead(q, id)
      ensures Q.Dead(r, id) && Q.Silent(r.log, |q.log|, id)
    {
      Q.DeadForever(q, u[n..], id);
    }
  }

  /** A change of generation between two moments of a run. */
  lemma {:induction false} GenerationOver(q: Q.Queue, t: seq<Q.Action>, r: Q.Queue, u: seq<Q.Action>)
    requires q == Q.Run(Q.EMPTY, t) && r == Q.Run(Q.EMPTY, u) && t <= u && q.epoch < r.epoch
    ensures forall id :: 0 <= id < q.nextId ==> Q.Dead(r, id)
  {
    var n := |t|;
    assert u[..n] == t;
    Q.RunValid(t);
    Q.RunFrom(Q.EMPTY, n, u);
    forall id | 0 <= id < q.nextId
      ensures Q.Dead(r, id)
    {
      Q.NewGenerationKills(q, u[n..], id);
    }
  }

  /**
   Between the queue q of trace t and the queue r of trace u: from any moment on at which the generation is
   a later one, the jobs accepted before t ended are dead and nothing is posted for them.
   */
  ghost predicate Outlived(q: Q.Queue, t: seq<Q.Action>, r: Q.Queue, u: seq<Q.Action>) {
    forall m: nat, id: nat :: |t| <= m <= |u| && q.epoch < Q.Run(Q.EMPTY, u[..m]).epoch && id < q.nextId ==>
      Q.Dead(r, id) && Q.Silent(r.log, |Q.Run(Q.EMPTY, u[..m]).log|, id)
  }

  lemma {:induction false} OldGenerations(q: Q.Queue, t: seq<Q.Action>, r: Q.Queue, u: seq<Q.Action>)
    requires q == Q.Run(Q.EMPTY, t) && r == Q.Run(Q.EMPTY, u) && t <= u
    ensures Outlived(q, t, r, u)
  {
    forall m: nat, id: nat | |t| <= m <= |u| && q.epoch < Q.Run(Q.EMPTY, u[..m]).epoch && id < q.nextId
      ensures Q.Dead(r, id) && Q.Silent(r.log, |Q.Run(Q.EMPTY, u[..m]).log|, id)
    {
      assert t <= u[..m];
      GenerationOver(q, t, Q.Run(Q.EMPTY, u[..m]), u[..m]);
      AllDeadForever(Q.Run(Q.EMPTY, u[..m]), u[..m], r, u);
    }
  }

  /** A queue without active tags that goes on from another. */
  lemma {:induction false} NothingActive(q: Q.Queue, t: seq<Q.Action>, r: Q.Queue, u: seq<Q.Action>)
    requires q == Q.Run(Q.EMPTY, t) && r == Q.Run(Q.EMPTY, u) && t <= u && r.active == {}
    ensures forall id :: 0 <= id < q.nextId ==> Q.Dead(r, id)
  {
    var n := |t|;
    assert u[..n] == t;
    Q.RunValid(u);
    Q.RunFrom(Q.EMPTY, n, u);
    Q.OldJobs(q, u[n..]);
    forall id | 0 <= id < q.nextId
      ensures Q.Dead(r, id)
    {
      Q.IdleKills(r, id);
    }
  }
}

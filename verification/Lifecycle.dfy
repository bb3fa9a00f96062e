/**
  The thread lifecycle protocol: thread slots, the C threads that run in them, the goroutines
  that replace a rebooting C thread, the holder of scalingMu, and the main PHP thread.

  One event is one indivisible action of one participant: an operation on a ThreadState, on a
  channel, the creation or the end of a C thread, or one arm of beforeScriptExecution up to its
  next blocking wait. Waking from a wait and acting on it are separate events, and so are the read and
  the Set(Inactive) of the inactive handler, between which another goroutine may be granted a change.
 */
module Lifecycle {
  import opened Options
  import opened States

  datatype Handler = NoHandler | InactiveHandler | RegularHandler | WorkerHandler(worker: nat)

  predicate Serves(h: Handler) {
    h.RegularHandler? || h.WorkerHandler?
  }

  /** Where a live C thread is. `via` is the handler object whose method it is running. */
  datatype PhpPc =
    | Top                                   // about to ask the slot's handler for a script
    | BeforeScript(via: Handler)             // about to run via.beforeScriptExecution again
    | SettingInactive                       // inactive handler, has read the state and is about to Set(Inactive)
    | ParkedInactive                        // inactive handler, waiting for a signal
    | ParkedTransition                      // transitionToNewHandler, waiting for TransitionComplete
    | RequestEntry(via: Handler)             // entering waitForRequest / waitForWorkerRequest
    | RequestWait(via: Handler, ch: nat)     // selecting on drain channel ch and the request channels
    | Script(via: Handler)                   // executing PHP code
    | Respawning                            // unhealthy: about to start its own replacement
    | Exiting                               // left the loop: about to report its shutdown

  datatype RebooterPhase = Waiting | Awake | Releasing

  /** A goroutine in startRebootedThread, with the handler it was started with. */
  datatype Rebooter = Rebooter(handler: Handler, phase: RebooterPhase)

  /** Drain channels are numbered per slot; number 0 is the nil channel of a slot never booted.
      Three fields count won reboots, replacement threads and releases; `lost` records that a granted
      state change was overwritten by a Set(Inactive). */
  datatype Slot = Slot(
    st: State, handler: Handler,
    threads: seq<PhpPc>, rebooters: seq<Rebooter>,
    drain: nat, closed: set<nat>,
    won: nat, replaced: nat, released: nat,
    lost: bool)

  datatype MainPc = MainParked | MainTeardown | MainGone | MainBooting
  datatype Main = Main(st: State, pc: MainPc)

  datatype ShutPhase = ShutRequest | ShutClose | ShutAwait | ShutFinish | ShutJoin | ShutOver

  /** What the holder of scalingMu is doing; Free when nobody holds it. */
  datatype Controller =
    | Free
    | BootWon(i: nat, h: Handler)
    | BootReset(i: nat, h: Handler)
    | BootWait(i: nat, h: Handler)
    | Request(i: nat, h: Handler, adding: bool)
    | CloseDrain(i: nat, h: Handler, adding: bool)
    | AwaitPark(i: nat, h: Handler, adding: bool)
    | Install(i: nat, h: Handler, adding: bool)
    | Complete(i: nat, h: Handler, adding: bool)
    | AwaitStable(i: nat)
    | Force(next: nat, forced: set<nat>)
    | Yield(forced: set<nat>, toClose: set<nat>, waiting: set<nat>)
    | MainDown(forced: set<nat>)
    | MainRespawn(forced: set<nat>)
    | MainBoot(forced: set<nat>)
    | Resume(todo: set<nat>)
    | ResumeWait(i: nat, todo: set<nat>)
    | Drain(phases: seq<ShutPhase>)
    | DrainMain

  datatype System = System(slots: seq<Slot>, main: Main, ctl: Controller)

  /* ---------- drain channels ---------- */

  predicate Open(a: Slot) {
    a.drain > 0 && a.drain !in a.closed
  }

  function FreshDrain(a: Slot): Slot {
    a.(drain := a.drain + 1)
  }

  /** close(thread.drainChan): panics on a nil or closed channel. */
  function CloseChannel(a: Slot): Result<Slot> {
    if Open(a) then Next(a.(closed := a.closed + {a.drain})) else Panic
  }

  /* ---------- the C thread side ---------- */

  datatype PhpAct =
    | Arm              // run one arm of beforeScriptExecution
    | SetInactive      // the second lock region of the inactive handler's arm
    | Wake             // a WaitFor returns
    | MaxRequests      // the max_requests limit is reached: try reboot()
    | Select           // start selecting on the drain and request channels
    | Drained          // the drain channel was closed
    | Serve            // a request was received
    | HandleRequest    // the worker script calls frankenphp_handle_request
    | ScriptEnd        // the script ended, the thread is healthy
    | Bailout          // the script ended in zend_catch, the thread is unhealthy
    | Respawn(ok: bool)
    | Report           // go_frankenphp_on_thread_shutdown

  function SetPc(a: Slot, k: nat, pc: PhpPc): Slot
    requires k < |a.threads|
  {
    a.(threads := a.threads[k := pc])
  }

  function EndThread(a: Slot, k: nat): Slot
    requires k < |a.threads|
  {
    a.(threads := a.threads[..k] + a.threads[k + 1..])
  }

  /** h.beforeScriptExecution, for the C thread k. */
  function RunArm(a: Slot, k: nat, h: Handler): Result<Slot>
    requires k < |a.threads|
  {
    match h
    case NoHandler => Panic
    case InactiveHandler => (
      match a.st
      case TransitionRequested => Next(SetPc(a.(st := TransitionInProgress), k, ParkedTransition))
      case Booting | TransitionComplete | Inactive => Next(SetPc(a, k, SettingInactive))
      case Rebooting | ForceRebooting => Next(SetPc(a, k, Exiting))
      case RebootReady => Next(SetPc(a.(st := Inactive), k, BeforeScript(h)))
      case ShuttingDown => Next(SetPc(a, k, Exiting))
      case _ => Panic)
    case RegularHandler => (
      match a.st
      case TransitionRequested => Next(SetPc(a.(st := TransitionInProgress), k, ParkedTransition))
      case TransitionComplete => Next(SetPc(a.(st := Ready), k, RequestEntry(h)))
      case Ready => Next(SetPc(a, k, RequestEntry(h)))
      case Rebooting | ForceRebooting => Next(SetPc(a, k, Exiting))
      case RebootReady => Next(SetPc(a.(st := Ready), k, RequestEntry(h)))
      case ShuttingDown => Next(SetPc(a, k, Exiting))
      case _ => Panic)
    case WorkerHandler(_) => (
      match a.st
      case TransitionRequested => Next(SetPc(a.(st := TransitionInProgress), k, ParkedTransition))
      case Ready | TransitionComplete => Next(SetPc(a, k, Script(h)))
      case Rebooting | ForceRebooting => Next(SetPc(a, k, Exiting))
      case RebootReady => Next(SetPc(a.(st := Ready), k, BeforeScript(h)))
      case ShuttingDown => Next(SetPc(a, k, Exiting))
      case _ => Panic)
  }

  /** A state change was granted to another goroutine, which waits for the C thread to see it. */
  predicate ChangeGranted(a: Slot) {
    a.st in {TransitionRequested, ForceRebooting, ShuttingDown}
  }

  /** Set(Inactive), whatever the state has become since it was read. */
  function LateSet(a: Slot, k: nat): Slot
    requires k < |a.threads|
  {
    SetPc(a.(st := Inactive, lost := a.lost || ChangeGranted(a)), k, ParkedInactive)
  }

  /** A won reboot: the goroutine that will start the replacement is launched. */
  function WinReboot(a: Slot, st: State): Slot {
    a.(st := st, rebooters := a.rebooters + [Rebooter(a.handler, Waiting)], won := a.won + 1)
  }

  /** The part of waitForRequest / waitForWorkerRequest that starts the select. */
  function StartSelect(a: Slot, k: nat, via: Handler): Slot
    requires k < |a.threads|
  {
    var b := if via.WorkerHandler? && a.st == TransitionComplete then a.(st := Ready) else a;
    SetPc(b, k, RequestWait(via, a.drain))
  }

  /** afterScriptExecution of the slot's handler for a script started by `via`: the inactive handler
      panics, and a handler that did not start the script has no request context to close. */
  function AfterScript(a: Slot, k: nat, via: Handler, pc: PhpPc): Result<Slot>
    requires k < |a.threads|
  {
    if !Serves(a.handler) || a.handler != via then Panic else Next(SetPc(a, k, pc))
  }

  function ReportedState(st: State): State {
    match st
    case Rebooting => RebootReady
    case ForceRebooting => YieldingForReboot
    case _ => Done
  }

  function PhpStep(a: Slot, k: nat, act: PhpAct): Result<Slot> {
    if k >= |a.threads| then Disabled else
    match (a.threads[k], act)
    case (Top, Arm) => RunArm(a, k, a.handler)
    case (BeforeScript(via), Arm) => RunArm(a, k, via)
    case (SettingInactive, SetInactive) => Next(LateSet(a, k))
    case (ParkedInactive, Wake) =>
      if a.st in {TransitionRequested, ShuttingDown, Rebooting, ForceRebooting}
      then Next(SetPc(a, k, BeforeScript(InactiveHandler))) else Disabled
    case (ParkedTransition, Wake) =>
      if a.st == TransitionComplete then Next(SetPc(a, k, Top)) else Disabled
    case (RequestEntry(via), MaxRequests) =>
      if a.st == Ready
      then Next(SetPc(WinReboot(a, Rebooting), k, if via.RegularHandler? then Exiting else Script(via)))
      else Next(StartSelect(a, k, via))
    case (RequestEntry(via), Select) => Next(StartSelect(a, k, via))
    case (RequestWait(via, ch), Drained) =>
      if ch !in a.closed then Disabled
      else Next(SetPc(a, k, if via.RegularHandler? then BeforeScript(via) else Script(via)))
    case (RequestWait(via, ch), Serve) => Next(SetPc(a, k, Script(via)))
    case (Script(via), HandleRequest) =>
      if !via.WorkerHandler? then Disabled
      else if !a.handler.WorkerHandler? then Panic
      else Next(SetPc(a, k, RequestEntry(a.handler)))
    case (Script(via), ScriptEnd) => AfterScript(a, k, via, Top)
    case (Script(via), Bailout) => AfterScript(a, k, via, Respawning)
    case (Respawning, Respawn(ok)) => Next(if ok then SetPc(a, k, Top) else EndThread(a, k))
    case (Exiting, Report) => Next(EndThread(a, k).(st := ReportedState(a.st)))
    case _ => Disabled
  }

  /* ---------- the goroutines that replace a rebooting C thread ---------- */

  datatype RebooterAct = SeeRebootReady | Create(ok: bool) | Release

  function EndRebooter(a: Slot, k: nat): Slot
    requires k < |a.rebooters|
  {
    a.(rebooters := a.rebooters[..k] + a.rebooters[k + 1..])
  }

  function RebooterStep(a: Slot, k: nat, act: RebooterAct): Result<Slot> {
    if k >= |a.rebooters| then Disabled else
    var r := a.rebooters[k];
    match (r.phase, act)
    case (Waiting, SeeRebootReady) =>
      if a.st == RebootReady then Next(a.(rebooters := a.rebooters[k := r.(phase := Awake)])) else Disabled
    case (Awake, Create(ok)) =>
      if ok
      then Next(EndRebooter(a, k).(threads := a.threads + [Top], replaced := a.replaced + 1))
      else Next(a.(rebooters := a.rebooters[k := r.(phase := Releasing)]))
    case (Releasing, Release) =>
      Next(EndRebooter(a, k).(st := Reserved, released := a.released + 1))
    case _ => Disabled
  }

  /* ---------- the main PHP thread ---------- */

  datatype MainAct = LeaveWait | FinishTeardown | BecomeReady

  function MainStep(m: Main, act: MainAct): Result<Main> {
    match (m.pc, act)
    case (MainParked, LeaveWait) =>
      if m.st in {Done, Rebooting} then Next(m.(pc := MainTeardown)) else Disabled
    case (MainTeardown, FinishTeardown) =>
      Next(Main(if m.st == Rebooting then YieldingForReboot else Reserved, MainGone))
    case (MainBooting, BecomeReady) => Next(Main(Ready, MainParked))
    case _ => Disabled
  }

  /* ---------- the holder of scalingMu ---------- */

  datatype ControllerAct =
    | AddInactive(i: nat, h: Handler)    // scaling or restoring: an inactive thread was found
    | AddReserved(i: nat, h: Handler)    // ... or a reserved slot is to be booted
    | Deactivate(i: nat)                 // downscaling an idle thread
    | RebootAll
    | DrainAll
    | Advance(ok: bool)                  // the next action of a sequential phase
    | AdvanceAt(i: nat)                  // the next action of the goroutine working on slot i

  function Put(s: System, i: nat, a: Slot, c: Controller): Result<System>
    requires i < |s.slots|
  {
    Next(s.(slots := s.slots[i := a], ctl := c))
  }

  function Close(s: System, i: nat, c: Controller): Result<System>
    requires i < |s.slots|
  {
    match CloseChannel(s.slots[i])
    case Next(a) => Put(s, i, a, c)
    case _ => Panic
  }

  /** convertTo...Thread: where the controller goes once setHandler is over. */
  function AfterSetHandler(i: nat, adding: bool): Controller {
    if adding then AwaitStable(i) else Free
  }

  predicate Stable(st: State) {
    st in {Ready, Inactive, Reserved}
  }

  /** phpThread.boot */
  function BootStep(s: System, ok: bool): Result<System>
    requires s.ctl.BootWon? || s.ctl.BootReset? || s.ctl.BootWait?
  {
    var i, h := s.ctl.i, s.ctl.h;
    if i >= |s.slots| then Disabled else
    var a := s.slots[i];
    match s.ctl
    case BootWon(_, _) =>
      if a.st in {Reserved, BootRequested} then Put(s, i, a.(st := Booting), BootReset(i, h)) else Panic
    case BootReset(_, _) =>
      var b := FreshDrain(a.(handler := InactiveHandler));
      if ok then Put(s, i, b.(threads := b.threads + [Top]), BootWait(i, h))
      else Put(s, i, b.(st := Reserved), Free)
    case BootWait(_, _) =>
      if a.st == Inactive then Next(s.(ctl := Request(i, h, true))) else Disabled
  }

  /** phpThread.setHandler, then the wait for a stable state of the callers that add a thread. */
  function SetHandlerStep(s: System): Result<System>
    requires s.ctl.Request? || s.ctl.CloseDrain? || s.ctl.AwaitPark? || s.ctl.Install? || s.ctl.Complete?
  {
    var i, h, adding := s.ctl.i, s.ctl.h, s.ctl.adding;
    if i >= |s.slots| then Disabled else
    var a := s.slots[i];
    match s.ctl
    case Request(_, _, _) => (
      match SafeChangeIn(a.st)
      case Granted => Put(s, i, a.(st := TransitionRequested), CloseDrain(i, h, adding))
      case Refused => Next(s.(ctl := AfterSetHandler(i, adding)))
      case MustWait => Disabled)
    case CloseDrain(_, _, _) => Close(s, i, AwaitPark(i, h, adding))
    case AwaitPark(_, _, _) =>
      if a.st == TransitionInProgress then Next(s.(ctl := Install(i, h, adding))) else Disabled
    case Install(_, _, _) => Put(s, i, FreshDrain(a.(handler := h)), Complete(i, h, adding))
    case Complete(_, _, _) => Put(s, i, a.(st := TransitionComplete), AfterSetHandler(i, adding))
  }

  /** rebootAllThreads: the parts that run in sequence. */
  function RebootAllStep(s: System): Result<System> {
    match s.ctl
    case Force(i, forced) =>
      if i >= |s.slots| then Next(s.(ctl := Yield(forced, forced, forced))) else (
      match SafeChangeIn(s.slots[i].st)
      case Granted => Put(s, i, WinReboot(s.slots[i], ForceRebooting), Force(i + 1, forced + {i}))
      case Refused => Next(s.(ctl := Force(i + 1, forced)))
      case MustWait => Disabled)
    case Yield(forced, _, waiting) =>
      if waiting == {} then Next(s.(main := s.main.(st := Rebooting), ctl := MainDown(forced))) else Disabled
    case MainDown(forced) =>
      if s.main.st == YieldingForReboot then Next(s.(ctl := MainRespawn(forced))) else Disabled
    case MainRespawn(forced) => Next(s.(main := s.main.(pc := MainBooting), ctl := MainBoot(forced)))
    case MainBoot(forced) => if s.main.st == Ready then Next(s.(ctl := Resume(forced))) else Disabled
    case Resume(todo) => if todo == {} then Next(s.(ctl := Free)) else Disabled
    case ResumeWait(i, todo) =>
      if i < |s.slots| && Stable(s.slots[i].st) then Next(s.(ctl := Resume(todo))) else Disabled
    case _ => Disabled
  }

  /** rebootAllThreads: the goroutines that drain each thread, and the resumption of each slot. */
  function RebootSlotStep(s: System, i: nat): Result<System>
    requires i < |s.slots|
  {
    var a := s.slots[i];
    match s.ctl
    case Yield(forced, toClose, waiting) =>
      if i in toClose then Close(s, i, Yield(forced, toClose - {i}, waiting))
      else if i in waiting && a.st == YieldingForReboot
      then Next(s.(ctl := Yield(forced, toClose, waiting - {i})))
      else Disabled
    case Resume(todo) =>
      if i !in todo then Disabled
      else if a.st != YieldingForReboot then Panic
      else Put(s, i, FreshDrain(a).(st := RebootReady), ResumeWait(i, todo - {i}))
    case _ => Disabled
  }

  /** phpThread.shutdown of slot i, run by drainPHPThreads in a goroutine of its own. */
  function ShutdownStep(s: System, i: nat): Result<System>
    requires i < |s.slots| && s.ctl.Drain?
  {
    var a, ph := s.slots[i], s.ctl.phases;
    if i >= |ph| then Disabled else
    match ph[i]
    case ShutRequest => (
      match SafeChangeIn(a.st)
      case Granted => Put(s, i, a.(st := ShuttingDown), Drain(ph[i := ShutClose]))
      case Refused => Next(s.(ctl := Drain(ph[i := ShutJoin])))
      case MustWait => Disabled)
    case ShutClose => Close(s, i, Drain(ph[i := ShutAwait]))
    case ShutAwait => if a.st == Done then Next(s.(ctl := Drain(ph[i := ShutFinish]))) else Disabled
    case ShutFinish => Put(s, i, FreshDrain(a).(st := Reserved), Drain(ph[i := ShutOver]))
    case ShutJoin =>
      if a.st in {Done, Reserved} then Put(s, i, a.(st := Reserved), Drain(ph[i := ShutOver])) else Disabled
    case ShutOver => Disabled
  }

  function AdvanceStep(s: System, ok: bool): Result<System> {
    match s.ctl
    case BootWon(_, _) | BootReset(_, _) | BootWait(_, _) => BootStep(s, ok)
    case Request(_, _, _) | CloseDrain(_, _, _) | AwaitPark(_, _, _)
       | Install(_, _, _) | Complete(_, _, _) => SetHandlerStep(s)
    case AwaitStable(i) =>
      if i < |s.slots| && Stable(s.slots[i].st) then Next(s.(ctl := Free)) else Disabled
    case Drain(ph) =>
      if forall i | 0 <= i < |ph| :: ph[i] == ShutOver
      then Next(s.(main := s.main.(st := Done), ctl := DrainMain)) else Disabled
    case DrainMain => if s.main.st == Reserved then Next(s.(ctl := Free)) else Disabled
    case _ => RebootAllStep(s)
  }

  function ControllerStep(s: System, act: ControllerAct): Result<System> {
    match act
    case AddInactive(i, h) =>
      if s.ctl.Free? && s.main.st == Ready && Serves(h) && i < |s.slots| && s.slots[i].st == Inactive
      then Next(s.(ctl := Request(i, h, true))) else Disabled
    case AddReserved(i, h) =>
      if s.ctl.Free? && s.main.st == Ready && Serves(h) && i < |s.slots| && s.slots[i].st == Reserved
      then Put(s, i, s.slots[i].(st := BootRequested), BootWon(i, h)) else Disabled
    case Deactivate(i) =>
      if s.ctl.Free? && i < |s.slots| && s.slots[i].st == Ready
      then Next(s.(ctl := Request(i, InactiveHandler, false))) else Disabled
    case RebootAll => if s.ctl.Free? && s.main.st == Ready then Next(s.(ctl := Force(0, {}))) else Disabled
    case DrainAll =>
      if s.ctl.Free? && s.main.st == Ready
      then Next(s.(main := s.main.(st := ShuttingDown), ctl := Drain(seq(|s.slots|, _ => ShutRequest))))
      else Disabled
    case Advance(ok) => AdvanceStep(s, ok)
    case AdvanceAt(i) =>
      if i >= |s.slots| then Disabled
      else if s.ctl.Drain? then ShutdownStep(s, i) else RebootSlotStep(s, i)
  }

  /* ---------- whole runs ---------- */

  datatype Event =
    | Php(slot: nat, k: nat, act: PhpAct)
    | Reboot(slot: nat, k: nat, ract: RebooterAct)
    | MainThread(mact: MainAct)
    | Scaling(cact: ControllerAct)

  function OnSlot(s: System, i: nat, r: Result<Slot>): Result<System>
    requires i < |s.slots|
  {
    match r
    case Next(a) => Next(s.(slots := s.slots[i := a]))
    case Panic => Panic
    case Disabled => Disabled
  }

  function Step(s: System, e: Event): (r: Result<System>)
    ensures r.Next? ==> |r.value.slots| == |s.slots|
  {
    match e
    case Php(i, k, act) => if i < |s.slots| then OnSlot(s, i, PhpStep(s.slots[i], k, act)) else Disabled
    case Reboot(i, k, act) => if i < |s.slots| then OnSlot(s, i, RebooterStep(s.slots[i], k, act)) else Disabled
    case MainThread(act) => (
      match MainStep(s.main, act)
      case Next(m) => Next(s.(main := m))
      case _ => Disabled)
    case Scaling(act) => ControllerStep(s, act)
  }

  /** The state a run ends in. An event that is not enabled is skipped; a panic stops the run. */
  function Run(s: System, events: seq<Event>): Result<System>
    decreases |events|
  {
    if events == [] then Next(s) else
    match Step(s, events[0])
    case Panic => Panic
    case Disabled => Run(s, events[1..])
    case Next(s1) => Run(s1, events[1..])
  }
}

/**
  The inductive invariant of the lifecycle protocol. What may hold of a slot depends only on the
  slot and on the role the holder of scalingMu currently plays for it.
 */
module LifecycleInvariant {
  import opened Options
  import opened States
  import opened Lifecycle

  /** What the holder of scalingMu is doing to one slot. */
  datatype Role =
    | Unowned
    | ToBoot | ToSpawn | BootingUp | AddTarget
    | ToClose | ToPark | ToInstall | ToComplete
    | Forced | Draining | Yielded | Skipped
    | ShutToClose | ShutDraining | ShutToFinish | ShutJoined

  function ShutRole(p: ShutPhase): Role {
    match p
    case ShutRequest => Unowned
    case ShutClose => ShutToClose
    case ShutAwait => ShutDraining
    case ShutFinish => ShutToFinish
    case ShutJoin | ShutOver => ShutJoined
  }

  function RoleOf(c: Controller, i: nat): Role {
    match c
    case BootWon(j, _) => if i == j then ToBoot else Unowned
    case BootReset(j, _) => if i == j then ToSpawn else Unowned
    case BootWait(j, _) => if i == j then BootingUp else Unowned
    case Request(j, _, adding) => if i == j && adding then AddTarget else Unowned
    case CloseDrain(j, _, _) => if i == j then ToClose else Unowned
    case AwaitPark(j, _, _) => if i == j then ToPark else Unowned
    case Install(j, _, _) => if i == j then ToInstall else Unowned
    case Complete(j, _, _) => if i == j then ToComplete else Unowned
    case Force(next, forced) => if i >= next then Unowned else if i in forced then Forced else Skipped
    case Yield(forced, toClose, waiting) =>
      if i !in forced then Skipped
      else if i in toClose then Forced
      else if i in waiting then Draining else Yielded
    case MainDown(_) | MainRespawn(_) | MainBoot(_) => if i in c.forced then Yielded else Skipped
    case Resume(todo) => if i in todo then Yielded else Unowned
    case ResumeWait(_, todo) => if i in todo then Yielded else Unowned
    case Drain(phases) => if i < |phases| then ShutRole(phases[i]) else Unowned
    case DrainMain => ShutJoined
    case Free | AwaitStable(_) => Unowned
  }

  /* ---------- one slot ---------- */

  predicate AtArm(pc: PhpPc) {
    pc.Top? || pc.BeforeScript?
  }

  predicate Working(pc: PhpPc) {
    AtArm(pc) || pc.RequestEntry? || pc.RequestWait? || pc.Script? || pc.Respawning?
  }

  /** A C thread only runs methods of the slot's current handler and selects on its current channel. */
  predicate PcOk(a: Slot, pc: PhpPc) {
    match pc
    case Top | ParkedTransition | Exiting => a.handler != NoHandler
    case BeforeScript(via) => via == a.handler != NoHandler
    case SettingInactive | ParkedInactive => a.handler == InactiveHandler
    case RequestEntry(_) | Script(_) => pc.via == a.handler && Serves(pc.via)
    case RequestWait(via, ch) => via == a.handler && Serves(via) && ch == a.drain
    case Respawning => Serves(a.handler)
  }

  /** Running the inactive handler, or about to. */
  predicate Resting(pc: PhpPc) {
    pc.SettingInactive? || pc.ParkedInactive?
  }

  /** Which C threads and rebooters can exist in each state. */
  predicate ShapeOk(a: Slot) {
    var t, r := a.threads, a.rebooters;
    match a.st
    case Reserved | BootRequested | Done => t == [] && r == []
    case Booting => r == [] && (t != [] ==> (t[0] == Top || t[0].SettingInactive?) && a.handler == InactiveHandler)
    case Inactive => r == [] && a.handler == InactiveHandler && t != [] && (AtArm(t[0]) || Resting(t[0]))
    case Ready => r == [] && Serves(a.handler) && (t != [] ==> Working(t[0]))
    case TransitionRequested => r == [] && (t != [] ==> Working(t[0]) || Resting(t[0]))
    case TransitionInProgress => r == [] && t == [ParkedTransition]
    case TransitionComplete =>
      r == [] && a.handler != NoHandler
      && (t != [] ==> t[0].ParkedTransition? || AtArm(t[0]) || t[0].SettingInactive?
                      || (a.handler.WorkerHandler? && Working(t[0]) && !t[0].RequestWait?))
    case Rebooting =>
      |r| == 1 && r[0].phase == Waiting && Serves(a.handler) && (t != [] ==> Working(t[0]) || t[0].Exiting?)
    case ForceRebooting =>
      |r| == 1 && r[0].phase == Waiting && (t != [] ==> Working(t[0]) || Resting(t[0]) || t[0].Exiting?)
    case YieldingForReboot => |r| == 1 && r[0].phase == Waiting && t == []
    case RebootReady => a.handler != NoHandler && ((|r| == 1 && t == []) || (r == [] && t == [Top]))
    case ShuttingDown => r == [] && (t != [] ==> Working(t[0]) || Resting(t[0]) || t[0].Exiting?)
  }

  predicate Closed(a: Slot) {
    a.drain > 0 && a.drain in a.closed
  }

  /** Open, or never made. */
  predicate Unclosed(a: Slot) {
    a.drain !in a.closed
  }

  /** Which states a slot can be in under each role, and whether its drain channel is open. */
  predicate RoleOk(a: Slot, role: Role) {
    match role
    case Unowned =>
      a.st in {Reserved, Inactive, Ready, TransitionComplete, Rebooting, RebootReady}
      && (if a.st == Reserved then Unclosed(a) else Open(a))
    case ToBoot => a.st == BootRequested && Unclosed(a)
    case ToSpawn => a.st == Booting && a.threads == [] && Unclosed(a)
    case BootingUp => a.st in {Booting, Inactive} && a.threads != [] && Open(a)
    case AddTarget => a.st == Inactive && Open(a)
    case ToClose => a.st in {TransitionRequested, TransitionInProgress} && Open(a)
    case ToPark => a.st in {TransitionRequested, TransitionInProgress} && Closed(a)
    case ToInstall => a.st == TransitionInProgress && Closed(a)
    case ToComplete => a.st == TransitionInProgress && Open(a)
    case Forced => a.st in {ForceRebooting, YieldingForReboot} && Open(a)
    case Draining => a.st in {ForceRebooting, YieldingForReboot} && Closed(a)
    case Yielded => a.st == YieldingForReboot && Closed(a)
    case Skipped => a.st == Reserved && Unclosed(a)
    case ShutToClose => a.st in {ShuttingDown, Done} && Open(a)
    case ShutDraining => a.st in {ShuttingDown, Done} && Closed(a)
    case ShutToFinish => a.st == Done && Closed(a)
    case ShutJoined => a.st == Reserved && Unclosed(a)
  }

  /** A slot whose granted change was overwritten: its C thread is parked, and the owner of the change
      still waits for it. */
  predicate LostOk(a: Slot, role: Role) {
    && a.st == Inactive && a.handler == InactiveHandler && a.threads == [ParkedInactive]
    && match role
       case ToClose | ShutToClose => a.rebooters == [] && Open(a)
       case ToPark | ShutDraining => a.rebooters == [] && Closed(a)
       case Forced => |a.rebooters| == 1 && a.rebooters[0].phase == Waiting && Open(a)
       case Draining => |a.rebooters| == 1 && a.rebooters[0].phase == Waiting && Closed(a)
       case _ => false
  }

  predicate SlotOk(a: Slot, role: Role) {
    && |a.threads| <= 1
    && (a.threads != [] ==> PcOk(a, a.threads[0]))
    && (a.rebooters != [] ==> a.rebooters[0].handler == a.handler != NoHandler)
    && a.won == a.replaced + a.released + |a.rebooters|
    && (forall c | c in a.closed :: 0 < c <= a.drain)
    && (if a.lost then LostOk(a, role) else ShapeOk(a) && RoleOk(a, role))
  }

  /* ---------- the main thread and the controller ---------- */

  predicate ControllerOk(s: System) {
    var m, n := s.main, |s.slots|;
    match s.ctl
    case Free =>
      m == Main(Ready, MainParked)
      || (m == Main(Reserved, MainGone) && forall i | 0 <= i < n :: s.slots[i].st == Reserved)
    case BootWon(i, h) => m == Main(Ready, MainParked) && i < n && Serves(h)
    case BootReset(i, h) => m == Main(Ready, MainParked) && i < n && Serves(h)
    case BootWait(i, h) => m == Main(Ready, MainParked) && i < n && Serves(h)
    case Request(i, h, _) => m == Main(Ready, MainParked) && i < n && h != NoHandler
    case CloseDrain(i, h, _) => m == Main(Ready, MainParked) && i < n && h != NoHandler
    case AwaitPark(i, h, _) => m == Main(Ready, MainParked) && i < n && h != NoHandler
    case Install(i, h, _) => m == Main(Ready, MainParked) && i < n && h != NoHandler
    case Complete(i, h, _) => m == Main(Ready, MainParked) && i < n && s.slots[i].handler == h != NoHandler
    case AwaitStable(i) => m == Main(Ready, MainParked) && i < n
    case Force(next, forced) => m == Main(Ready, MainParked) && next <= n && forall j | j in forced :: j < next
    case Yield(forced, toClose, waiting) =>
      m == Main(Ready, MainParked) && toClose <= waiting <= forced && forall j | j in forced :: j < n
    case MainDown(forced) =>
      m in {Main(Rebooting, MainParked), Main(Rebooting, MainTeardown), Main(YieldingForReboot, MainGone)}
      && forall j | j in forced :: j < n
    case MainRespawn(forced) => m == Main(YieldingForReboot, MainGone) && forall j | j in forced :: j < n
    case MainBoot(forced) =>
      m in {Main(YieldingForReboot, MainBooting), Main(Ready, MainParked)} && forall j | j in forced :: j < n
    case Resume(todo) => m == Main(Ready, MainParked) && forall j | j in todo :: j < n
    case ResumeWait(i, todo) => m == Main(Ready, MainParked) && i < n && i !in todo && forall j | j in todo :: j < n
    case Drain(phases) => m == Main(ShuttingDown, MainParked) && |phases| == n
    case DrainMain => m in {Main(Done, MainParked), Main(Done, MainTeardown), Main(Reserved, MainGone)}
  }

  ghost predicate Inv(s: System) {
    ControllerOk(s) && forall i | 0 <= i < |s.slots| :: SlotOk(s.slots[i], RoleOf(s.ctl, i))
  }

  /* ---------- steps of a slot preserve what its role promises ---------- */

  predicate ArmKeeps(a: Slot, role: Role)
    requires a.threads != []
  {
    var r := RunArm(a, 0, a.handler);
    r.Next? && SlotOk(r.value, role)
  }

  lemma InactiveRestsOk(a: Slot, role: Role)
    requires SlotOk(a, role) && a.threads != [] && AtArm(a.threads[0]) && a.handler == InactiveHandler
    requires a.st in {Booting, TransitionComplete, Inactive}
    ensures SlotOk(SetPc(a, 0, SettingInactive), role)
  {
    assert !a.lost;
  }

  lemma InactiveArmOk(a: Slot, role: Role)
    requires SlotOk(a, role) && a.threads != [] && AtArm(a.threads[0]) && a.handler == InactiveHandler
    ensures ArmKeeps(a, role)
  {
    assert !a.lost;
    if a.st in {Booting, TransitionComplete, Inactive} {
      InactiveRestsOk(a, role);
    }
  }

  lemma RegularArmOk(a: Slot, role: Role)
    requires SlotOk(a, role) && a.threads != [] && AtArm(a.threads[0]) && a.handler == RegularHandler
    ensures ArmKeeps(a, role)
  {
    assert !a.lost;
  }

  lemma WorkerArmOk(a: Slot, role: Role)
    requires SlotOk(a, role) && a.threads != [] && AtArm(a.threads[0]) && a.handler.WorkerHandler?
    ensures ArmKeeps(a, role)
  {
    assert !a.lost;
  }

  lemma ArmOk(a: Slot, role: Role)
    requires SlotOk(a, role) && a.threads != [] && AtArm(a.threads[0])
    ensures ArmKeeps(a, role)
  {
    match a.handler
    case InactiveHandler => InactiveArmOk(a, role);
    case RegularHandler => RegularArmOk(a, role);
    case WorkerHandler(_) => WorkerArmOk(a, role);
  }

  lemma RebootWonOk(a: Slot, role: Role)
    requires SlotOk(a, role) && a.threads != [] && a.threads[0].RequestEntry? && a.st == Ready
    ensures SlotOk(SetPc(WinReboot(a, Rebooting), 0, if a.handler.RegularHandler? then Exiting else Script(a.handler)), role)
  {
    assert !a.lost && role == Unowned;
  }

  lemma StartSelectOk(a: Slot, role: Role)
    requires SlotOk(a, role) && a.threads != [] && a.threads[0].RequestEntry?
    ensures SlotOk(StartSelect(a, 0, a.handler), role)
  {
    assert !a.lost;
  }

  lemma EntryOk(a: Slot, role: Role, limit: bool)
    requires SlotOk(a, role) && a.threads != [] && a.threads[0].RequestEntry?
    ensures var r := PhpStep(a, 0, if limit then MaxRequests else Select);
            r.Next? && SlotOk(r.value, role)
  {
    assert a.threads[0].via == a.handler;
    if limit && a.st == Ready {
      RebootWonOk(a, role);
    } else {
      StartSelectOk(a, role);
    }
  }

  lemma ReportOk(a: Slot, role: Role)
    requires SlotOk(a, role) && a.threads == [Exiting]
    ensures var r := PhpStep(a, 0, Report);
            r.Next? && SlotOk(r.value, role)
  {
    assert a.st in {Rebooting, ForceRebooting, ShuttingDown};
  }

  lemma WaitEndsOk(a: Slot, role: Role, act: PhpAct)
    requires SlotOk(a, role) && a.threads != [] && act in {Wake, Drained, Serve}
    ensures !PhpStep(a, 0, act).Panic?
    ensures PhpStep(a, 0, act).Next? ==> SlotOk(PhpStep(a, 0, act).value, role)
  {
    match act
    case Wake =>
    case Drained =>
    case Serve =>
  }

  /** Set(Inactive) keeps the invariant even when it overwrites a granted change: the slot is then lost. */
  lemma LateSetOk(a: Slot, role: Role)
    requires SlotOk(a, role) && a.threads == [SettingInactive]
    ensures SlotOk(LateSet(a, 0), role)
  {
    var b := LateSet(a, 0);
    assert b.threads == [ParkedInactive];
    assert a.st in {Booting, TransitionComplete, Inactive} || ChangeGranted(a);
  }

  lemma ScriptActOk(a: Slot, role: Role, act: PhpAct)
    requires SlotOk(a, role) && a.threads != []
    requires act in {HandleRequest, ScriptEnd, Bailout} || act.Respawn?
    ensures !PhpStep(a, 0, act).Panic?
    ensures PhpStep(a, 0, act).Next? ==> SlotOk(PhpStep(a, 0, act).value, role)
  {
    if act.Respawn? {
      RespawnOk(a, role, act.ok);
    } else if a.threads[0].Script? {
      assert !a.lost && a.handler == a.threads[0].via;
      match act
      case HandleRequest =>
      case ScriptEnd =>
      case Bailout =>
    }
  }

  lemma RespawnOk(a: Slot, role: Role, ok: bool)
    requires SlotOk(a, role) && a.threads != []
    ensures !PhpStep(a, 0, Respawn(ok)).Panic?
    ensures PhpStep(a, 0, Respawn(ok)).Next? ==> SlotOk(PhpStep(a, 0, Respawn(ok)).value, role)
  {
  }

  lemma PhpStepOk(a: Slot, role: Role, k: nat, act: PhpAct)
    requires SlotOk(a, role)
    ensures !PhpStep(a, k, act).Panic?
    ensures PhpStep(a, k, act).Next? ==> SlotOk(PhpStep(a, k, act).value, role)
  {
    if k == 0 < |a.threads| {
      var pc := a.threads[0];
      if act.Arm? {
        if AtArm(pc) { ArmOk(a, role); }
      } else if act.MaxRequests? || act.Select? {
        if pc.RequestEntry? { EntryOk(a, role, act.MaxRequests?); }
      } else if act.Report? {
        if pc.Exiting? { ReportOk(a, role); }
      } else if act.SetInactive? {
        if pc.SettingInactive? { LateSetOk(a, role); }
      } else if act in {Wake, Drained, Serve} {
        WaitEndsOk(a, role, act);
      } else {
        ScriptActOk(a, role, act);
      }
    }
  }

  lemma PhpKeepsHandler(a: Slot, k: nat, act: PhpAct)
    ensures PhpStep(a, k, act).Next? ==> PhpStep(a, k, act).value.handler == a.handler
  {
  }

  lemma RebooterStepOk(a: Slot, role: Role, k: nat, act: RebooterAct)
    requires SlotOk(a, role)
    ensures !RebooterStep(a, k, act).Panic?
    ensures RebooterStep(a, k, act).Next? ==> SlotOk(RebooterStep(a, k, act).value, role)
  {
  }

  /* ---------- steps of setHandler move a slot from one role to the next ---------- */

  lemma TransitionWonOk(a: Slot, role: Role)
    requires SlotOk(a, role) && (role == Unowned || role == AddTarget) && SafeChangeIn(a.st) == Granted
    ensures SlotOk(a.(st := TransitionRequested), ToClose)
  {
  }

  lemma DrainClosedOk(a: Slot)
    requires SlotOk(a, ToClose)
    ensures CloseChannel(a).Next? && SlotOk(CloseChannel(a).value, ToPark)
  {
  }

  lemma InstalledOk(a: Slot, h: Handler)
    requires SlotOk(a, ToInstall) && h != NoHandler
    ensures SlotOk(FreshDrain(a.(handler := h)), ToComplete)
  {
  }

  lemma CompletedOk(a: Slot)
    requires SlotOk(a, ToComplete)
    ensures SlotOk(a.(st := TransitionComplete), Unowned)
  {
  }

  /* ---------- steps of rebootAllThreads do the same ---------- */

  lemma ForcedClosedOk(a: Slot)
    requires SlotOk(a, Forced)
    ensures CloseChannel(a).Next? && SlotOk(CloseChannel(a).value, Draining)
  {
  }

  lemma ResumedOk(a: Slot)
    requires SlotOk(a, Yielded)
    ensures SlotOk(FreshDrain(a).(st := RebootReady), Unowned)
  {
  }
}

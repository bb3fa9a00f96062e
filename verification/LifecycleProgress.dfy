/**
  When the holder of scalingMu can still finish. A slot is driven by its own C thread and rebooter to a point
  where it waits for the controller; the controller then makes its next step; and there are only so many of
  those. What stands in the way is exactly a granted change that was, or is about to be, overwritten, or a
  slot the controller still needs whose unhealthy C thread failed to start its replacement.
 */
module LifecycleProgress {
  import opened Options
  import opened States
  import opened Lifecycle
  import opened LifecycleInvariant
  import opened LifecycleSafety
  import opened LifecycleRace

  /** The next action of the C thread is to overwrite a granted change. */
  predicate AboutToLose(a: Slot) {
    ChangeGranted(a) && a.threads != [] && a.threads[0].SettingInactive?
  }

  predicate Doomed(a: Slot) {
    a.lost || AboutToLose(a)
  }

  /** The slot needs its C thread, but that was unhealthy and failed to start its replacement. */
  predicate Orphaned(a: Slot) {
    a.threads == [] && a.st in {Ready, TransitionRequested, TransitionComplete, Rebooting, ForceRebooting, ShuttingDown}
  }

  predicate Healthy(a: Slot) {
    !Doomed(a) && !Orphaned(a)
  }

  /** The controller is not done with slot i, or will yet come to it. */
  predicate Needed(c: Controller, i: nat) {
    match c
    case Free | DrainMain => false
    case Force(next, forced) => i >= next || i in forced
    case Yield(forced, _, _) => i in forced
    case MainDown(_) | MainRespawn(_) | MainBoot(_) => i in c.forced
    case Resume(todo) => i in todo
    case ResumeWait(j, todo) => i == j || i in todo
    case Drain(phases) => i < |phases| && phases[i] != ShutOver
    case _ => i == c.i
  }

  /** The controller only waits for the slot to be stable. */
  predicate Awaited(c: Controller, i: nat) {
    (c.AwaitStable? || c.ResumeWait?) && i == c.i
  }

  /** The slot keeps the controller from ever finishing. */
  predicate Stuck(s: System, i: nat)
    requires i < |s.slots|
  {
    var a := s.slots[i];
    Doomed(a) || (Orphaned(a) && Needed(s.ctl, i) && !(a.st == Ready && Awaited(s.ctl, i)))
  }

  ghost predicate Fine(s: System) {
    Inv(s) && forall i | 0 <= i < |s.slots| :: !Stuck(s, i)
  }

  /* ---------- a slot left to itself comes to rest ---------- */

  /** Steps until the inactive handler is parked. */
  function ParkSteps(pc: PhpPc): nat {
    match pc
    case ParkedInactive => 0
    case SettingInactive => 1
    case _ => 2
  }

  /** Steps until the C thread sees a granted change, and the report if it ends. */
  function ExitSteps(pc: PhpPc): nat {
    match pc
    case Exiting => 1
    case Top | BeforeScript(_) => 2
    case ParkedInactive | Script(_) | Respawning => 3
    case RequestWait(_, _) => 4
    case RequestEntry(_) => 5
    case _ => 0
  }

  /** Steps until a new handler is ready. */
  function ReadySteps(pc: PhpPc): nat {
    match pc
    case SettingInactive | RequestEntry(_) => 1
    case Script(_) => 2
    case Top | BeforeScript(_) => 3
    case ParkedTransition | Respawning => 4
    case _ => 0
  }

  function ReplaceSteps(r: Rebooter): nat {
    match r.phase
    case Waiting => 5
    case Awake => 4
    case Releasing => 1
  }

  /** How many steps the slot can make before it waits for the controller. */
  function Work(a: Slot): nat {
    if a.threads == [] then
      if a.st == RebootReady && a.rebooters != [] then ReplaceSteps(a.rebooters[0]) else 0
    else
      match a.st
      case Inactive | Booting => ParkSteps(a.threads[0])
      case TransitionRequested | ForceRebooting | ShuttingDown => ExitSteps(a.threads[0])
      case TransitionComplete => ReadySteps(a.threads[0])
      case Rebooting => 6 + ExitSteps(a.threads[0])
      case RebootReady => 3
      case _ => 0
  }

  function PhpMove(a: Slot): PhpAct
    requires a.threads != []
  {
    match a.threads[0]
    case Top | BeforeScript(_) => Arm
    case SettingInactive => SetInactive
    case ParkedInactive | ParkedTransition => Wake
    case RequestEntry(_) => Select
    case RequestWait(_, _) => Serve
    case Script(_) => if a.st == TransitionComplete then HandleRequest else ScriptEnd
    case Respawning => Respawn(true)
    case Exiting => Report
  }

  function RebooterMove(r: Rebooter): RebooterAct {
    match r.phase
    case Waiting => SeeRebootReady
    case Awake => Create(true)
    case Releasing => Release
  }

  /** Nearer to rest, with the same handler; a new handler that serves becomes Ready on its way. */
  ghost predicate Nearer(a: Slot, r: Result<Slot>) {
    && r.Next? && Healthy(r.value) && Work(r.value) < Work(a) && r.value.handler == a.handler
    && (a.st == TransitionComplete && Serves(a.handler) ==> r.value.st in {TransitionComplete, Ready})
  }

  lemma ParkNearer(a: Slot, role: Role)
    requires SlotOk(a, role) && Healthy(a) && a.threads != [] && Work(a) > 0 && a.st in {Inactive, Booting}
    ensures Nearer(a, PhpStep(a, 0, PhpMove(a)))
  {
  }

  lemma ExitNearer(a: Slot, role: Role)
    requires SlotOk(a, role) && Healthy(a) && a.threads != [] && a.threads[0].Exiting?
    ensures Nearer(a, PhpStep(a, 0, Report))
  {
    assert a.st in {Rebooting, ForceRebooting, ShuttingDown};
  }

  predicate Leaving(st: State) {
    st in {TransitionRequested, ForceRebooting, ShuttingDown, Rebooting}
  }

  lemma ArmLeaves(a: Slot, role: Role)
    requires SlotOk(a, role) && Healthy(a) && a.threads != [] && AtArm(a.threads[0]) && Leaving(a.st)
    ensures Nearer(a, RunArm(a, 0, a.handler))
  {
    assert !a.lost && a.handler != NoHandler;
  }

  lemma LeaveNearer(a: Slot, role: Role)
    requires SlotOk(a, role) && Healthy(a) && a.threads != [] && !a.threads[0].Exiting? && Leaving(a.st)
    ensures Nearer(a, PhpStep(a, 0, PhpMove(a)))
  {
    assert !a.lost && !a.threads[0].SettingInactive?;
    if AtArm(a.threads[0]) {
      ArmLeaves(a, role);
    }
  }

  lemma ReadyNearer(a: Slot, role: Role)
    requires SlotOk(a, role) && Healthy(a) && a.threads != [] && a.st in {TransitionComplete, RebootReady}
    ensures Nearer(a, PhpStep(a, 0, PhpMove(a)))
  {
    assert !a.lost;
    if a.st == RebootReady {
      assert a.threads == [Top];
    }
    if AtArm(a.threads[0]) {
      ArmOk(a, role);
    }
  }

  lemma ReplaceNearer(a: Slot, role: Role)
    requires SlotOk(a, role) && Healthy(a) && a.threads == [] && Work(a) > 0
    ensures Nearer(a, RebooterStep(a, 0, RebooterMove(a.rebooters[0])))
  {
  }

  lemma PhpNearer(a: Slot, role: Role)
    requires SlotOk(a, role) && Healthy(a) && a.threads != [] && Work(a) > 0
    ensures Nearer(a, PhpStep(a, 0, PhpMove(a)))
  {
    if a.st in {Inactive, Booting} {
      ParkNearer(a, role);
    } else if a.st in {TransitionComplete, RebootReady} {
      ReadyNearer(a, role);
    } else if a.threads[0].Exiting? {
      ExitNearer(a, role);
    } else {
      LeaveNearer(a, role);
    }
  }

  /** One step of the slot's own threads. */
  lemma SlotMoves(s: System, i: nat) returns (e: Event, b: Slot)
    requires Fine(s) && i < |s.slots| && Needed(s.ctl, i) && Work(s.slots[i]) > 0
    ensures Step(s, e) == Next(s.(slots := s.slots[i := b])) && Fine(s.(slots := s.slots[i := b]))
    ensures Work(b) < Work(s.slots[i]) && b.handler == s.slots[i].handler
    ensures s.slots[i].st == TransitionComplete && Serves(s.slots[i].handler) ==> b.st in {TransitionComplete, Ready}
  {
    var a, role := s.slots[i], RoleOf(s.ctl, i);
    assert SlotOk(a, role) && Healthy(a) by { assert !Stuck(s, i); }
    if a.threads == [] {
      ReplaceNearer(a, role);
      e := Reboot(i, 0, RebooterMove(a.rebooters[0]));
      b := RebooterStep(a, 0, RebooterMove(a.rebooters[0])).value;
    } else {
      PhpNearer(a, role);
      e := Php(i, 0, PhpMove(a));
      b := PhpStep(a, 0, PhpMove(a)).value;
    }
    StepOk(s, e);
    StillFine(s, i, b);
  }

  lemma StillFine(s: System, i: nat, b: Slot)
    requires Fine(s) && i < |s.slots| && Healthy(b) && Inv(s.(slots := s.slots[i := b]))
    ensures Fine(s.(slots := s.slots[i := b]))
  {
    var t := s.(slots := s.slots[i := b]);
    forall j | 0 <= j < |t.slots| ensures !Stuck(t, j) { assert !Stuck(s, j); }
  }

  lemma RunOne(s: System, e: Event, t: System)
    requires Step(s, e) == Next(t)
    ensures Run(s, [e]) == Next(t)
  {
    assert [e][1..] == [];
  }

  /** A slot comes to rest without the controller or any other slot moving. */
  lemma {:induction false} SlotSettles(s: System, i: nat) returns (events: seq<Event>, b: Slot)
    requires Fine(s) && i < |s.slots| && Needed(s.ctl, i)
    ensures Run(s, events) == Next(s.(slots := s.slots[i := b])) && Fine(s.(slots := s.slots[i := b]))
    ensures Work(b) == 0 && b.handler == s.slots[i].handler
    ensures s.slots[i].st in {TransitionComplete, Ready} && Serves(s.slots[i].handler) ==> b.st in {TransitionComplete, Ready}
    decreases Work(s.slots[i])
  {
    if Work(s.slots[i]) == 0 {
      events, b := [], s.slots[i];
      assert s.slots[i := b] == s.slots;
    } else {
      var e, c := SlotMoves(s, i);
      var s1 := s.(slots := s.slots[i := c]);
      var rest: seq<Event>;
      rest, b := SlotSettles(s1, i);
      RunOne(s, e, s1);
      RunConcat(s, [e], rest);
      events := [e] + rest;
      assert s1.slots[i := b] == s.slots[i := b];
    }
  }

  /** Where a slot at rest is, by what the controller is doing to it. */
  lemma AtRest(a: Slot, role: Role)
    requires SlotOk(a, role) && Healthy(a) && Work(a) == 0
    ensures role in {Unowned, AddTarget} ==> Stable(a.st) && (a.st == Inactive ==> a.threads == [ParkedInactive])
    ensures role == BootingUp ==> a.st == Inactive
    ensures role == ToPark ==> a.st == TransitionInProgress
    ensures role == Draining ==> a.st == YieldingForReboot
    ensures role == ShutDraining ==> a.st == Done
  {
    assert !a.lost;
  }

  /* ---------- the controller has only so many steps left ---------- */

  function PhaseRank(p: ShutPhase): nat {
    match p
    case ShutRequest => 5
    case ShutClose => 4
    case ShutAwait => 3
    case ShutFinish => 2
    case ShutJoin => 1
    case ShutOver => 0
  }

  function PhaseSum(phases: seq<ShutPhase>): nat {
    if phases == [] then 0 else PhaseSum(phases[..|phases| - 1]) + PhaseRank(phases[|phases| - 1])
  }

  lemma {:induction false} PhaseSumPut(phases: seq<ShutPhase>, i: nat, p: ShutPhase)
    requires i < |phases|
    ensures PhaseSum(phases[i := p]) == PhaseSum(phases) - PhaseRank(phases[i]) + PhaseRank(p)
  {
    var n := |phases| - 1;
    if i < n {
      PhaseSumPut(phases[..n], i, p);
      assert phases[i := p][..n] == phases[..n][i := p];
    } else {
      assert phases[i := p][..n] == phases[..n];
    }
  }

  function MainRank(m: Main): nat {
    match m.pc
    case MainParked => 2
    case MainTeardown => 1
    case _ => 0
  }

  function Rank(s: System): nat {
    match s.ctl
    case Free => 0
    case AwaitStable(_) => 1
    case Complete(_, _, _) => 2
    case Install(_, _, _) => 3
    case AwaitPark(_, _, _) => 4
    case CloseDrain(_, _, _) => 5
    case Request(_, _, _) => 6
    case BootWait(_, _) => 7
    case BootReset(_, _) => 8
    case BootWon(_, _) => 9
    case Resume(todo) => 1 + 2 * |todo|
    case ResumeWait(_, todo) => 2 + 2 * |todo|
    case MainBoot(forced) => 2 * |forced| + (if s.main.st == Ready then 3 else 4)
    case MainRespawn(forced) => 2 * |forced| + 5
    case MainDown(forced) => 2 * |forced| + 6 + MainRank(s.main)
    case Yield(forced, toClose, waiting) => 9 + 2 * |forced| + |toClose| + |waiting|
    case Force(next, forced) => 10 + 4 * |forced| + 5 * (if next < |s.slots| then |s.slots| - next else 0)
    case Drain(phases) => 5 + PhaseSum(phases)
    case DrainMain => 1 + MainRank(s.main)
  }

  /** The events lead on to a system that is still fine, with the controller nearer to its end. */
  ghost predicate Advances(s: System, e: Event, t: System) {
    Step(s, e) == Next(t) && Fine(t) && Rank(t) < Rank(s)
  }

  /** The controller needs no slot it did not need before. */
  ghost predicate NeedsNoMore(s: System, t: System) {
    forall j | 0 <= j < |s.slots| && Needed(t.ctl, j) :: Needed(s.ctl, j) && !Awaited(s.ctl, j)
  }

  /** One slot and the controller moved, and the slot is healthy: so is everything. */
  lemma PutAdvances(s: System, e: Event, i: nat, b: Slot, c: Controller)
    requires Fine(s) && i < |s.slots| && Healthy(b)
    requires var t := s.(slots := s.slots[i := b], ctl := c);
             Step(s, e) == Next(t) && Rank(t) < Rank(s)
             && forall j | 0 <= j < |s.slots| && j != i && Needed(c, j) :: Needed(s.ctl, j) && !Awaited(s.ctl, j)
    ensures Advances(s, e, s.(slots := s.slots[i := b], ctl := c))
  {
    StepOk(s, e);
    var t := s.(slots := s.slots[i := b], ctl := c);
    forall j | 0 <= j < |t.slots| ensures !Stuck(t, j) { assert !Stuck(s, j); }
  }

  /** The controller or the main thread moved, and no slot did. */
  lemma ControlAdvances(s: System, e: Event, t: System)
    requires Fine(s) && Step(s, e) == Next(t) && t.slots == s.slots && Rank(t) < Rank(s) && NeedsNoMore(s, t)
    ensures Advances(s, e, t)
  {
    StepOk(s, e);
    forall j | 0 <= j < |t.slots| ensures !Stuck(t, j) { assert !Stuck(s, j); }
  }

  /** A slot the controller needs, and does not merely wait for, is healthy. */
  lemma NeededIsHealthy(s: System, i: nat)
    requires Fine(s) && i < |s.slots| && Needed(s.ctl, i) && !Awaited(s.ctl, i)
    ensures Healthy(s.slots[i]) && SlotOk(s.slots[i], RoleOf(s.ctl, i))
  {
    assert !Stuck(s, i);
  }

  /** A change granted to a slot at rest will be seen. */
  lemma GrantIsHealthy(a: Slot, role: Role, st: State)
    requires SlotOk(a, role) && Healthy(a) && Work(a) == 0 && role in {Unowned, AddTarget}
    requires st in {TransitionRequested, ForceRebooting, ShuttingDown}
    ensures SafeChangeIn(a.st) != MustWait
    ensures SafeChangeIn(a.st) == Granted ==> Healthy(a.(st := st)) && Healthy(WinReboot(a, st))
  {
    AtRest(a, role);
  }

  /** Closing, opening and handing over a channel does not touch the health of a slot. */
  lemma ChannelsAreHealthy(a: Slot, role: Role)
    requires SlotOk(a, role) && Healthy(a)
    ensures Open(a) ==> CloseChannel(a).Next? && Healthy(CloseChannel(a).value)
    ensures Healthy(FreshDrain(a))
  {
  }

  const GO := Scaling(Advance(true))

  lemma BootAdvances(s: System) returns (t: System)
    requires Fine(s) && (s.ctl.BootWon? || s.ctl.BootReset? || s.ctl.BootWait?) && Work(s.slots[s.ctl.i]) == 0
    ensures Advances(s, GO, t)
  {
    var i, h := s.ctl.i, s.ctl.h;
    var a := s.slots[i];
    NeededIsHealthy(s, i);
    if s.ctl.BootWon? {
      PutAdvances(s, GO, i, a.(st := Booting), BootReset(i, h));
      t := s.(slots := s.slots[i := a.(st := Booting)], ctl := BootReset(i, h));
    } else if s.ctl.BootReset? {
      var b := FreshDrain(a.(handler := InactiveHandler));
      var c := b.(threads := b.threads + [Top]);
      PutAdvances(s, GO, i, c, BootWait(i, h));
      t := s.(slots := s.slots[i := c], ctl := BootWait(i, h));
    } else {
      AtRest(a, BootingUp);
      t := s.(ctl := Request(i, h, true));
      ControlAdvances(s, GO, t);
    }
  }

  lemma RequestAdvances(s: System) returns (t: System)
    requires Fine(s) && s.ctl.Request? && Work(s.slots[s.ctl.i]) == 0
    ensures Advances(s, GO, t)
  {
    var Request(i, h, adding) := s.ctl;
    var a := s.slots[i];
    NeededIsHealthy(s, i);
    GrantIsHealthy(a, RoleOf(s.ctl, i), TransitionRequested);
    if SafeChangeIn(a.st) == Granted {
      PutAdvances(s, GO, i, a.(st := TransitionRequested), CloseDrain(i, h, adding));
      t := s.(slots := s.slots[i := a.(st := TransitionRequested)], ctl := CloseDrain(i, h, adding));
    } else {
      assert s.slots[i := a] == s.slots;
      t := s.(ctl := AfterSetHandler(i, adding));
      PutAdvances(s, GO, i, a, AfterSetHandler(i, adding));
    }
  }

  lemma CloseAdvances(s: System) returns (t: System)
    requires Fine(s) && (s.ctl.CloseDrain? || s.ctl.AwaitPark?) && Work(s.slots[s.ctl.i]) == 0
    ensures Advances(s, GO, t)
  {
    var i, h, adding := s.ctl.i, s.ctl.h, s.ctl.adding;
    var a := s.slots[i];
    NeededIsHealthy(s, i);
    if s.ctl.CloseDrain? {
      ChannelsAreHealthy(a, ToClose);
      var b := CloseChannel(a).value;
      PutAdvances(s, GO, i, b, AwaitPark(i, h, adding));
      t := s.(slots := s.slots[i := b], ctl := AwaitPark(i, h, adding));
    } else {
      AtRest(a, ToPark);
      t := s.(ctl := Install(i, h, adding));
      ControlAdvances(s, GO, t);
    }
  }

  lemma InstallAdvances(s: System) returns (t: System)
    requires Fine(s) && (s.ctl.Install? || s.ctl.Complete?)
    ensures Advances(s, GO, t)
  {
    var i, h, adding := s.ctl.i, s.ctl.h, s.ctl.adding;
    var a := s.slots[i];
    NeededIsHealthy(s, i);
    assert a.st == TransitionInProgress && a.threads == [ParkedTransition];
    if s.ctl.Install? {
      var b := FreshDrain(a.(handler := h));
      PutAdvances(s, GO, i, b, Complete(i, h, adding));
      t := s.(slots := s.slots[i := b], ctl := Complete(i, h, adding));
    } else {
      var b := a.(st := TransitionComplete);
      PutAdvances(s, GO, i, b, AfterSetHandler(i, adding));
      t := s.(slots := s.slots[i := b], ctl := AfterSetHandler(i, adding));
    }
  }

  lemma StableAdvances(s: System) returns (t: System)
    requires Fine(s) && (s.ctl.AwaitStable? || s.ctl.ResumeWait?) && Work(s.slots[s.ctl.i]) == 0
    ensures Advances(s, GO, t)
  {
    var i := s.ctl.i;
    var a := s.slots[i];
    assert SlotOk(a, RoleOf(s.ctl, i)) && !Stuck(s, i);
    if a.st != Ready {
      AtRest(a, RoleOf(s.ctl, i));
    }
    t := s.(ctl := if s.ctl.AwaitStable? then Free else Resume(s.ctl.todo));
    ControlAdvances(s, GO, t);
  }

  lemma ForceAdvances(s: System) returns (t: System)
    requires Fine(s) && s.ctl.Force? && (s.ctl.next < |s.slots| ==> Work(s.slots[s.ctl.next]) == 0)
    ensures Advances(s, GO, t)
  {
    var Force(i, forced) := s.ctl;
    if i == |s.slots| {
      t := s.(ctl := Yield(forced, forced, forced));
      ControlAdvances(s, GO, t);
      return;
    }
    var a := s.slots[i];
    NeededIsHealthy(s, i);
    GrantIsHealthy(a, Unowned, ForceRebooting);
    if SafeChangeIn(a.st) == Granted {
      var b := WinReboot(a, ForceRebooting);
      PutAdvances(s, GO, i, b, Force(i + 1, forced + {i}));
      t := s.(slots := s.slots[i := b], ctl := Force(i + 1, forced + {i}));
    } else {
      t := s.(ctl := Force(i + 1, forced));
      ControlAdvances(s, GO, t);
    }
  }

  /** The main thread goes down, and reports it. */
  lemma TeardownAdvances(s: System) returns (e: Event, t: System)
    requires Fine(s) && (s.ctl.MainDown? || s.ctl.DrainMain?)
    ensures Advances(s, e, t)
  {
    if s.main.pc == MainParked {
      e, t := MainThread(LeaveWait), s.(main := s.main.(pc := MainTeardown));
    } else if s.main.pc == MainTeardown {
      e := MainThread(FinishTeardown);
      t := s.(main := Main(if s.main.st == Rebooting then YieldingForReboot else Reserved, MainGone));
    } else {
      e, t := GO, s.(ctl := if s.ctl.MainDown? then MainRespawn(s.ctl.forced) else Free);
    }
    ControlAdvances(s, e, t);
  }

  /** The main thread is started again. */
  lemma RespawnAdvances(s: System) returns (e: Event, t: System)
    requires Fine(s) && (s.ctl.MainRespawn? || s.ctl.MainBoot?)
    ensures Advances(s, e, t)
  {
    if s.main.pc == MainBooting {
      e, t := MainThread(BecomeReady), s.(main := Main(Ready, MainParked));
    } else if s.ctl.MainRespawn? {
      e, t := GO, s.(main := s.main.(pc := MainBooting), ctl := MainBoot(s.ctl.forced));
    } else {
      e, t := GO, s.(ctl := Resume(s.ctl.forced));
    }
    ControlAdvances(s, e, t);
  }

  lemma YieldCloses(s: System, i: nat) returns (t: System)
    requires Fine(s) && s.ctl.Yield? && i in s.ctl.toClose && i < |s.slots|
    ensures Advances(s, Scaling(AdvanceAt(i)), t)
  {
    var Yield(forced, toClose, waiting) := s.ctl;
    var a := s.slots[i];
    NeededIsHealthy(s, i);
    assert |toClose - {i}| == |toClose| - 1;
    ChannelsAreHealthy(a, Forced);
    var b := CloseChannel(a).value;
    PutAdvances(s, Scaling(AdvanceAt(i)), i, b, Yield(forced, toClose - {i}, waiting));
    t := s.(slots := s.slots[i := b], ctl := Yield(forced, toClose - {i}, waiting));
  }

  lemma YieldEnds(s: System, i: nat) returns (t: System)
    requires Fine(s) && s.ctl.Yield? && i in s.ctl.waiting && i !in s.ctl.toClose && i < |s.slots| && Work(s.slots[i]) == 0
    ensures Advances(s, Scaling(AdvanceAt(i)), t)
  {
    var Yield(forced, toClose, waiting) := s.ctl;
    NeededIsHealthy(s, i);
    AtRest(s.slots[i], Draining);
    assert |waiting - {i}| == |waiting| - 1;
    t := s.(ctl := Yield(forced, toClose, waiting - {i}));
    ControlAdvances(s, Scaling(AdvanceAt(i)), t);
  }

  lemma ResumeAdvances(s: System, i: nat) returns (t: System)
    requires Fine(s) && s.ctl.Resume? && i in s.ctl.todo && i < |s.slots|
    ensures Advances(s, Scaling(AdvanceAt(i)), t)
  {
    var todo, a := s.ctl.todo, s.slots[i];
    NeededIsHealthy(s, i);
    assert a.st == YieldingForReboot && a.threads == [];
    assert |todo - {i}| == |todo| - 1;
    var b := FreshDrain(a).(st := RebootReady);
    PutAdvances(s, Scaling(AdvanceAt(i)), i, b, ResumeWait(i, todo - {i}));
    t := s.(slots := s.slots[i := b], ctl := ResumeWait(i, todo - {i}));
  }

  /** One phase of the shutdown of slot i. */
  lemma PhaseAdvances(s: System, i: nat, b: Slot, p: ShutPhase)
    requires Fine(s) && i < |s.slots| && s.ctl.Drain? && s.ctl.phases[i] != ShutOver && Healthy(b)
    requires PhaseRank(p) < PhaseRank(s.ctl.phases[i])
    requires Step(s, Scaling(AdvanceAt(i))) == Next(s.(slots := s.slots[i := b], ctl := Drain(s.ctl.phases[i := p])))
    ensures Advances(s, Scaling(AdvanceAt(i)), s.(slots := s.slots[i := b], ctl := Drain(s.ctl.phases[i := p])))
  {
    PhaseSumPut(s.ctl.phases, i, p);
    PutAdvances(s, Scaling(AdvanceAt(i)), i, b, Drain(s.ctl.phases[i := p]));
  }

  lemma ShutRequestAdvances(s: System, i: nat) returns (t: System)
    requires Fine(s) && s.ctl.Drain? && i < |s.slots| && s.ctl.phases[i] == ShutRequest && Work(s.slots[i]) == 0
    ensures Advances(s, Scaling(AdvanceAt(i)), t)
  {
    var a := s.slots[i];
    NeededIsHealthy(s, i);
    GrantIsHealthy(a, Unowned, ShuttingDown);
    var granted := SafeChangeIn(a.st) == Granted;
    var b, p := if granted then a.(st := ShuttingDown) else a, if granted then ShutClose else ShutJoin;
    assert s.slots[i := a] == s.slots;
    t := s.(slots := s.slots[i := b], ctl := Drain(s.ctl.phases[i := p]));
    PhaseAdvances(s, i, b, p);
  }

  lemma ShutExitAdvances(s: System, i: nat) returns (t: System)
    requires Fine(s) && s.ctl.Drain? && i < |s.slots| && s.ctl.phases[i] in {ShutClose, ShutAwait} && Work(s.slots[i]) == 0
    ensures Advances(s, Scaling(AdvanceAt(i)), t)
  {
    var a, closing := s.slots[i], s.ctl.phases[i] == ShutClose;
    NeededIsHealthy(s, i);
    AtRest(a, ShutRole(s.ctl.phases[i]));
    ChannelsAreHealthy(a, ShutRole(s.ctl.phases[i]));
    var b, p := if closing then CloseChannel(a).value else a, if closing then ShutAwait else ShutFinish;
    assert s.slots[i := a] == s.slots;
    t := s.(slots := s.slots[i := b], ctl := Drain(s.ctl.phases[i := p]));
    PhaseAdvances(s, i, b, p);
  }

  lemma ShutEndAdvances(s: System, i: nat) returns (t: System)
    requires Fine(s) && s.ctl.Drain? && i < |s.slots| && s.ctl.phases[i] in {ShutFinish, ShutJoin}
    ensures Advances(s, Scaling(AdvanceAt(i)), t)
  {
    var a := s.slots[i];
    NeededIsHealthy(s, i);
    assert a.threads == [];
    var b := if s.ctl.phases[i] == ShutFinish then FreshDrain(a).(st := Reserved) else a.(st := Reserved);
    t := s.(slots := s.slots[i := b], ctl := Drain(s.ctl.phases[i := ShutOver]));
    PhaseAdvances(s, i, b, ShutOver);
  }

  /** i is the slot the controller's next step is about, if that step is about a slot at all. */
  predicate IsNext(s: System, i: nat) {
    match s.ctl
    case Free | MainDown(_) | MainRespawn(_) | MainBoot(_) | DrainMain => true
    case Yield(_, _, waiting) => waiting != {} ==> i in waiting
    case Resume(todo) => todo != {} ==> i in todo
    case Drain(phases) =>
      (i < |phases| && phases[i] != ShutOver) || forall k | 0 <= k < |phases| :: phases[k] == ShutOver
    case Force(next, _) => i == next
    case _ => i == s.ctl.i
  }

  lemma NextSlot(s: System) returns (i: nat)
    ensures IsNext(s, i)
  {
    i := 0;
    match s.ctl
    case Free | MainDown(_) | MainRespawn(_) | MainBoot(_) | DrainMain =>
    case Yield(_, _, waiting) => if waiting != {} { i :| i in waiting; }
    case Resume(todo) => if todo != {} { i :| i in todo; }
    case Drain(phases) => if k :| 0 <= k < |phases| && phases[k] != ShutOver { i := k; }
    case Force(next, _) => i := next;
    case _ => i := s.ctl.i;
  }

  lemma GoroutineAdvances(s: System, i: nat) returns (e: Event, t: System)
    requires Fine(s) && (s.ctl.Yield? || s.ctl.Resume? || s.ctl.Drain?)
    requires IsNext(s, i) && (i < |s.slots| && Needed(s.ctl, i) ==> Work(s.slots[i]) == 0)
    ensures Advances(s, e, t)
  {
    e := Scaling(AdvanceAt(i));
    if s.ctl.Yield? && s.ctl.waiting != {} {
      if i in s.ctl.toClose { t := YieldCloses(s, i); } else { t := YieldEnds(s, i); }
    } else if s.ctl.Resume? && s.ctl.todo != {} {
      t := ResumeAdvances(s, i);
    } else if s.ctl.Drain? && i < |s.slots| && s.ctl.phases[i] != ShutOver {
      if s.ctl.phases[i] == ShutRequest {
        t := ShutRequestAdvances(s, i);
      } else if s.ctl.phases[i] in {ShutClose, ShutAwait} {
        t := ShutExitAdvances(s, i);
      } else {
        t := ShutEndAdvances(s, i);
      }
    } else {
      e, t := GO, PhaseOver(s);
      ControlAdvances(s, e, t);
    }
  }

  /** All goroutines of the phase are done. */
  function PhaseOver(s: System): System {
    match s.ctl
    case Yield(forced, _, _) => s.(main := s.main.(st := Rebooting), ctl := MainDown(forced))
    case Resume(_) => s.(ctl := Free)
    case _ => s.(main := s.main.(st := Done), ctl := DrainMain)
  }

  lemma ControllerAdvances(s: System, i: nat) returns (e: Event, t: System)
    requires Fine(s) && !s.ctl.Free? && IsNext(s, i) && (i < |s.slots| && Needed(s.ctl, i) ==> Work(s.slots[i]) == 0)
    ensures Advances(s, e, t)
    ensures s.ctl.BootReset? ==> e == GO
  {
    e := GO;
    match s.ctl
    case BootWon(_, _) | BootReset(_, _) | BootWait(_, _) => t := BootAdvances(s);
    case Request(_, _, _) => t := RequestAdvances(s);
    case CloseDrain(_, _, _) | AwaitPark(_, _, _) => t := CloseAdvances(s);
    case Install(_, _, _) | Complete(_, _, _) => t := InstallAdvances(s);
    case AwaitStable(_) | ResumeWait(_, _) => t := StableAdvances(s);
    case Force(_, _) => t := ForceAdvances(s);
    case MainDown(_) | DrainMain => e, t := TeardownAdvances(s);
    case MainRespawn(_) | MainBoot(_) => e, t := RespawnAdvances(s);
    case Yield(_, _, _) | Resume(_) | Drain(_) => e, t := GoroutineAdvances(s, i);
  }

  /** The slot is settled, if there is one, and nothing else moves. */
  lemma NextSlotSettles(s: System, i: nat) returns (events: seq<Event>, t: System)
    requires Fine(s) && IsNext(s, i)
    ensures Run(s, events) == Next(t) && Fine(t) && IsNext(t, i) && t.ctl == s.ctl && Rank(t) == Rank(s)
    ensures i < |t.slots| && Needed(t.ctl, i) ==> Work(t.slots[i]) == 0
  {
    if i < |s.slots| && Needed(s.ctl, i) {
      var b: Slot;
      events, b := SlotSettles(s, i);
      t := s.(slots := s.slots[i := b]);
    } else {
      events, t := [], s;
    }
  }

  /** From every fine system some continuation brings the controller back to Free. */
  lemma {:induction false} ReachesFree(s: System) returns (events: seq<Event>)
    requires Fine(s)
    ensures Run(s, events).Next? && Run(s, events).value.ctl == Free
    decreases Rank(s)
  {
    events := [];
    if s.ctl != Free {
      var i := NextSlot(s);
      var settle, s1 := NextSlotSettles(s, i);
      var e, s2 := ControllerAdvances(s1, i);
      RunOne(s1, e, s2);
      RunConcat(s, settle, [e]);
      var rest := ReachesFree(s2);
      RunConcat(s, settle + [e], rest);
      events := settle + [e] + rest;
    }
  }

  /* ---------- and what stands in the way ---------- */

  lemma DoomStays(s: System, e: Event, i: nat)
    requires Inv(s) && i < |s.slots| && Doomed(s.slots[i]) && Step(s, e).Next?
    ensures Doomed(Step(s, e).value.slots[i])
  {
    if s.slots[i].lost {
      LossStays(s, e, i);
    } else if ByOthers(e, i) {
      OthersLeaveState(s, e, i);
    } else {
      assert SlotOk(s.slots[i], RoleOf(s.ctl, i));
    }
  }

  /** The controller's own steps never get past an orphaned slot it needs. */
  lemma OrphanStaysSequential(s: System, ok: bool, i: nat)
    requires Inv(s) && i < |s.slots| && !Doomed(s.slots[i]) && Stuck(s, i) && AdvanceStep(s, ok).Next?
    ensures i < |AdvanceStep(s, ok).value.slots| && Stuck(AdvanceStep(s, ok).value, i)
  {
    assert SlotOk(s.slots[i], RoleOf(s.ctl, i));
    match s.ctl
    case BootWon(_, _) | BootReset(_, _) | BootWait(_, _) =>
    case Request(_, _, _) | CloseDrain(_, _, _) | AwaitPark(_, _, _) | Install(_, _, _) | Complete(_, _, _) =>
    case AwaitStable(_) | Drain(_) | DrainMain =>
    case _ =>
  }

  lemma OrphanStaysInReboot(s: System, j: nat, i: nat)
    requires Inv(s) && i < |s.slots| && j < |s.slots| && !Doomed(s.slots[i]) && Stuck(s, i) && RebootSlotStep(s, j).Next?
    ensures i < |RebootSlotStep(s, j).value.slots| && Stuck(RebootSlotStep(s, j).value, i)
  {
    assert SlotOk(s.slots[i], RoleOf(s.ctl, i));
  }

  lemma OrphanStaysInShutdown(s: System, j: nat, i: nat)
    requires Inv(s) && i < |s.slots| && j < |s.slots| && s.ctl.Drain? && !Doomed(s.slots[i]) && Stuck(s, i)
    requires ShutdownStep(s, j).Next?
    ensures i < |ShutdownStep(s, j).value.slots| && Stuck(ShutdownStep(s, j).value, i)
  {
    if i == j {
      OrphanMeetsShutdown(s, i);
    }
  }

  lemma OrphanMeetsShutdown(s: System, i: nat)
    requires Inv(s) && i < |s.slots| && s.ctl.Drain? && !Doomed(s.slots[i]) && Stuck(s, i) && ShutdownStep(s, i).Next?
    ensures i < |ShutdownStep(s, i).value.slots| && Stuck(ShutdownStep(s, i).value, i)
  {
    assert SlotOk(s.slots[i], ShutRole(s.ctl.phases[i]));
    assert s.ctl.phases[i] in {ShutRequest, ShutClose, ShutAwait};
  }

  lemma StuckStays(s: System, e: Event, i: nat)
    requires Inv(s) && i < |s.slots| && Stuck(s, i) && Step(s, e).Next?
    ensures Stuck(Step(s, e).value, i)
  {
    if Doomed(s.slots[i]) {
      DoomStays(s, e, i);
    } else {
      match e
      case Php(_, _, _) =>
      case Reboot(_, _, _) => assert SlotOk(s.slots[i], RoleOf(s.ctl, i));
      case MainThread(_) =>
      case Scaling(act) =>
        match act {
          case Advance(ok) => OrphanStaysSequential(s, ok, i);
          case AdvanceAt(j) => if s.ctl.Drain? { OrphanStaysInShutdown(s, j, i); } else { OrphanStaysInReboot(s, j, i); }
          case _ =>
        }
    }
  }

  /** A stuck slot keeps scalingMu locked in every continuation. */
  lemma {:induction false} StuckKeepsLock(s: System, events: seq<Event>, i: nat)
    requires Inv(s) && i < |s.slots| && Stuck(s, i)
    ensures Run(s, events).Next? && Run(s, events).value.ctl != Free
    decreases |events|
  {
    assert SlotOk(s.slots[i], RoleOf(s.ctl, i));
    if events != [] {
      StepOk(s, events[0]);
      match Step(s, events[0])
      case Disabled => StuckKeepsLock(s, events[1..], i);
      case Next(s1) =>
        StuckStays(s, events[0], i);
        StuckKeepsLock(s1, events[1..], i);
    }
  }

  ghost predicate CanFinish(s: System) {
    exists events :: Run(s, events).Next? && Run(s, events).value.ctl == Free
  }

  /** In every state a run can reach, some continuation releases scalingMu if and only if no slot is stuck: no
      granted change was, or is about to be, overwritten, and no slot the controller needs has lost its C
      thread to a failed respawn. */
  lemma LockCanBeReleasedIff(start: System, events: seq<Event>)
    requires Started(start)
    ensures Run(start, events).Next?
    ensures var s := Run(start, events).value;
            CanFinish(s) <==> forall i | 0 <= i < |s.slots| :: !Stuck(s, i)
  {
    StartedOk(start);
    RunKeeps(start, events);
    var s := Run(start, events).value;
    if forall i | 0 <= i < |s.slots| :: !Stuck(s, i) {
      var rest := ReachesFree(s);
    } else {
      var i :| 0 <= i < |s.slots| && Stuck(s, i);
      forall rest
        ensures !(Run(s, rest).Next? && Run(s, rest).value.ctl == Free)
      {
        StuckKeepsLock(s, rest, i);
      }
    }
  }
}

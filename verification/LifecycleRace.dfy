/**
  The inactive handler reads the slot's state in one lock region and sets Inactive in another. This module
  says exactly when the Set overwrites a change granted in between, that this really happens, what it leads
  to, and that no other arm has this problem.
 */
module LifecycleRace {
  import opened Options
  import opened States
  import opened Lifecycle
  import opened LifecycleInvariant
  import opened LifecycleSafety

  predicate AboutToSet(a: Slot) {
    a.threads != [] && a.threads[0].SettingInactive?
  }

  /** The Set(Inactive) leaves a slot that is as good as any other if and only if no state change has been
      granted since the state was read. */
  lemma LateSetIsHarmlessIff(s: System, i: nat)
    requires Inv(s) && i < |s.slots| && AboutToSet(s.slots[i])
    ensures SlotOk(LateSet(s.slots[i], 0).(lost := false), RoleOf(s.ctl, i)) <==> !ChangeGranted(s.slots[i])
  {
    var a := s.slots[i];
    assert SlotOk(a, RoleOf(s.ctl, i));
    assert !ChangeGranted(a) ==> a.st in {Booting, TransitionComplete, Inactive};
  }

  lemma LossStays(s: System, e: Event, i: nat)
    requires i < |s.slots| && Step(s, e).Next? && s.slots[i].lost
    ensures Step(s, e).value.slots[i].lost
  {
    match e
    case Php(_, _, _) =>
    case Reboot(_, _, _) =>
    case MainThread(_) =>
    case Scaling(act) =>
  }

  /** A lost change is lost for good: whatever happens afterwards, the slot stays Inactive with its C thread
      parked, scalingMu is never released, and the engine is never torn down. */
  lemma {:induction false} LossBlocksForever(s: System, events: seq<Event>, i: nat)
    requires Inv(s) && i < |s.slots| && s.slots[i].lost
    ensures Run(s, events).Next? && i < |Run(s, events).value.slots|
    ensures var t := Run(s, events).value;
            && t.slots[i].lost && t.slots[i].st == Inactive && t.slots[i].threads == [ParkedInactive]
            && !t.ctl.Free? && !EngineDown(t.main)
    decreases |events|
  {
    assert SlotOk(s.slots[i], RoleOf(s.ctl, i));
    if events == [] {
      if EngineDown(s.main) { InvEngine(s); }
    } else {
      StepOk(s, events[0]);
      match Step(s, events[0])
      case Disabled => LossBlocksForever(s, events[1..], i);
      case Next(s1) =>
        LossStays(s, events[0], i);
        LossBlocksForever(s1, events[1..], i);
    }
  }

  predicate ByOthers(e: Event, i: nat) {
    !(e.Php? && e.slot == i)
  }

  /** The holder of scalingMu changes the state or the C threads of slot i. */
  predicate Moves(s: System, r: Result<System>, i: nat)
    requires i < |s.slots|
  {
    && r.Next? && |r.value.slots| == |s.slots|
    && (r.value.slots[i].st != s.slots[i].st || r.value.slots[i].threads != s.slots[i].threads)
  }

  lemma AdvanceMoves(s: System, ok: bool, i: nat)
    requires i < |s.slots| && Moves(s, AdvanceStep(s, ok), i)
    ensures SafeChangeIn(s.slots[i].st) == Granted || RoleOf(s.ctl, i) in {ToBoot, ToSpawn, ToComplete}
  {
    match s.ctl
    case BootWon(_, _) | BootReset(_, _) | BootWait(_, _) =>
    case Request(_, _, _) | CloseDrain(_, _, _) | AwaitPark(_, _, _) | Install(_, _, _) | Complete(_, _, _) =>
    case _ =>
  }

  lemma RebootSlotMoves(s: System, j: nat, i: nat)
    requires i < |s.slots| && j < |s.slots| && Moves(s, RebootSlotStep(s, j), i)
    ensures RoleOf(s.ctl, i) == Yielded
  {
  }

  lemma ShutdownMoves(s: System, j: nat, i: nat)
    requires i < |s.slots| && j < |s.slots| && s.ctl.Drain? && Moves(s, ShutdownStep(s, j), i)
    ensures SafeChangeIn(s.slots[i].st) == Granted || RoleOf(s.ctl, i) in {ShutToFinish, ShutJoined}
  {
  }

  /** States that nobody but the slot's C thread changes while that thread is live. */
  predicate LeftToPhp(a: Slot) {
    a.threads != [] && a.st !in {Ready, Inactive, TransitionInProgress}
  }

  lemma ScalingLeavesState(s: System, act: ControllerAct, i: nat)
    requires Inv(s) && i < |s.slots| && LeftToPhp(s.slots[i])
    ensures !Moves(s, ControllerStep(s, act), i)
  {
    if Moves(s, ControllerStep(s, act), i) {
      match act {
        case Advance(ok) => AdvanceMoves(s, ok, i);
        case AdvanceAt(j) => if s.ctl.Drain? { ShutdownMoves(s, j, i); } else { RebootSlotMoves(s, j, i); }
        case _ =>
      }
      OwnedElsewhere(s.slots[i], RoleOf(s.ctl, i));
    }
  }

  /** In these roles the slot has no C thread, or it is parked in its transition. */
  lemma OwnedElsewhere(a: Slot, role: Role)
    requires SlotOk(a, role) && LeftToPhp(a)
    ensures role !in {ToBoot, ToSpawn, ToComplete, Yielded, ShutToFinish, ShutJoined}
    ensures SafeChangeIn(a.st) != Granted && a.st != Reserved
  {
  }

  lemma OthersLeaveState(s: System, e: Event, i: nat)
    requires Inv(s) && i < |s.slots| && Step(s, e).Next? && ByOthers(e, i) && LeftToPhp(s.slots[i])
    ensures Step(s, e).value.slots[i].st == s.slots[i].st && Step(s, e).value.slots[i].threads == s.slots[i].threads
  {
    match e
    case Php(_, _, _) =>
    case Reboot(_, _, _) => assert SlotOk(s.slots[i], RoleOf(s.ctl, i));
    case MainThread(_) =>
    case Scaling(act) => ScalingLeavesState(s, act, i);
  }

  /** Having read any state but Ready and Inactive, the C thread still finds that state when it acts on it,
      whatever the others did in between: taking the other arms of the handlers, and the report of an
      ending C thread, as one event changes nothing. */
  lemma {:induction false} ReadStaysCurrent(s: System, events: seq<Event>, i: nat)
    requires Inv(s) && i < |s.slots| && LeftToPhp(s.slots[i])
    requires forall k | 0 <= k < |events| :: ByOthers(events[k], i)
    ensures Run(s, events).Next? && i < |Run(s, events).value.slots|
    ensures Run(s, events).value.slots[i].st == s.slots[i].st
    ensures Run(s, events).value.slots[i].threads == s.slots[i].threads
    decreases |events|
  {
    if events != [] {
      assert ByOthers(events[0], i);
      StepOk(s, events[0]);
      match Step(s, events[0])
      case Disabled => ReadStaysCurrent(s, events[1..], i);
      case Next(s1) =>
        OthersLeaveState(s, events[0], i);
        ReadStaysCurrent(s1, events[1..], i);
    }
  }

  /* ---------- having read Inactive, a granted change can be lost ---------- */

  function SlotAfterReboot(): Slot {
    Slot(Inactive, InactiveHandler, [BeforeScript(InactiveHandler)], [], 2, {1}, 1, 1, 0, false)
  }

  /** One slot whose C thread was just replaced and has read Inactive; nobody holds scalingMu. */
  function JustRebooted(): System {
    System([SlotAfterReboot()], Main(Ready, MainParked), Free)
  }

  function OneInactive(): System {
    System([Slot(Inactive, InactiveHandler, [ParkedInactive], [], 1, {}, 0, 0, 0, false)], Main(Ready, MainParked), Free)
  }

  function YieldedSlot(): Slot {
    Slot(YieldingForReboot, InactiveHandler, [], [Rebooter(InactiveHandler, Waiting)], 1, {1}, 1, 0, 0, false)
  }

  function AllYielded(): System {
    System([YieldedSlot()], Main(Ready, MainParked), Yield({0}, {}, {0}))
  }

  function EngineBack(): System {
    System([YieldedSlot()], Main(Ready, MainParked), MainBoot({0}))
  }

  /** The slot yields; the engine is torn down and started again; the slot is resumed. */
  function YieldEvents(): seq<Event> {
    [Scaling(RebootAll)] + ([Scaling(Advance(true))] + ([Scaling(Advance(true))] + ([Scaling(AdvanceAt(0))]
    + ([Php(0, 0, Wake)] + ([Php(0, 0, Arm)] + ([Php(0, 0, Report)] + []))))))
  }

  function TeardownEvents(): seq<Event> {
    [Scaling(AdvanceAt(0))] + ([Scaling(Advance(true))] + ([MainThread(LeaveWait)]
    + ([MainThread(FinishTeardown)] + ([Scaling(Advance(true))] + ([Scaling(Advance(true))]
    + ([MainThread(BecomeReady)] + []))))))
  }

  function ResumeEvents(): seq<Event> {
    [Scaling(Advance(true))] + ([Scaling(AdvanceAt(0))] + ([Reboot(0, 0, SeeRebootReady)]
    + ([Reboot(0, 0, Create(true))] + ([Php(0, 0, Arm)] + ([Scaling(Advance(true))]
    + ([Scaling(Advance(true))] + []))))))
  }

  lemma Replace<T>(x: T, y: T)
    ensures [x][0 := y] == [y]
  {
  }

  lemma Then(s: System, e: Event, t: System, rest: seq<Event>)
    requires Step(s, e) == Next(t)
    ensures Run(s, [e] + rest) == Run(t, rest)
  {
    assert ([e] + rest)[1..] == rest;
  }

  /** The slot while it is forced to reboot. */
  function ForcedSlot(st: State, pc: seq<PhpPc>, closed: set<nat>): Slot {
    Slot(st, InactiveHandler, pc, [Rebooter(InactiveHandler, Waiting)], 1, closed, 1, 0, 0, false)
  }

  lemma SlotIsForced()
    ensures Step(OneInactive(), Scaling(RebootAll)) == Next(OneInactive().(ctl := Force(0, {})))
    ensures Step(OneInactive().(ctl := Force(0, {})), Scaling(Advance(true)))
         == Next(Resuming(ForcedSlot(ForceRebooting, [ParkedInactive], {}), Force(1, {0})))
  {
    var a := OneInactive().slots[0];
    var none: set<nat> := {};
    assert none + {0} == {0};
    assert a.rebooters + [Rebooter(InactiveHandler, Waiting)] == [Rebooter(InactiveHandler, Waiting)];
    Replace(a, ForcedSlot(ForceRebooting, [ParkedInactive], {}));
  }

  lemma DrainIsClosed()
    ensures Step(Resuming(ForcedSlot(ForceRebooting, [ParkedInactive], {}), Force(1, {0})), Scaling(Advance(true)))
         == Next(Resuming(ForcedSlot(ForceRebooting, [ParkedInactive], {}), Yield({0}, {0}, {0})))
    ensures Step(Resuming(ForcedSlot(ForceRebooting, [ParkedInactive], {}), Yield({0}, {0}, {0})), Scaling(AdvanceAt(0)))
         == Next(Resuming(ForcedSlot(ForceRebooting, [ParkedInactive], {1}), Yield({0}, {}, {0})))
  {
    var none: set<nat> := {};
    assert none + {1} == {1} && {0} - {0} == none;
    Replace(ForcedSlot(ForceRebooting, [ParkedInactive], {}), ForcedSlot(ForceRebooting, [ParkedInactive], {1}));
  }

  lemma ThreadExits(c: Controller)
    ensures Step(Resuming(ForcedSlot(ForceRebooting, [ParkedInactive], {1}), c), Php(0, 0, Wake))
         == Next(Resuming(ForcedSlot(ForceRebooting, [BeforeScript(InactiveHandler)], {1}), c))
    ensures Step(Resuming(ForcedSlot(ForceRebooting, [BeforeScript(InactiveHandler)], {1}), c), Php(0, 0, Arm))
         == Next(Resuming(ForcedSlot(ForceRebooting, [Exiting], {1}), c))
    ensures Step(Resuming(ForcedSlot(ForceRebooting, [Exiting], {1}), c), Php(0, 0, Report))
         == Next(Resuming(YieldedSlot(), c))
  {
    var parked, woken := ForcedSlot(ForceRebooting, [ParkedInactive], {1}), ForcedSlot(ForceRebooting, [BeforeScript(InactiveHandler)], {1});
    var exiting := ForcedSlot(ForceRebooting, [Exiting], {1});
    Replace(ParkedInactive, BeforeScript(InactiveHandler));
    Replace(BeforeScript(InactiveHandler), Exiting);
    assert [Exiting][..0] + [Exiting][1..] == [];
    Replace(parked, woken);
    Replace(woken, exiting);
    Replace(exiting, YieldedSlot());
  }

  lemma YieldLeg()
    ensures Run(OneInactive(), YieldEvents()) == Next(AllYielded())
  {
    var c := Yield({0}, {}, {0});
    var s1 := OneInactive().(ctl := Force(0, {}));
    var s2 := Resuming(ForcedSlot(ForceRebooting, [ParkedInactive], {}), Force(1, {0}));
    var s3 := Resuming(ForcedSlot(ForceRebooting, [ParkedInactive], {}), Yield({0}, {0}, {0}));
    var s4 := Resuming(ForcedSlot(ForceRebooting, [ParkedInactive], {1}), c);
    var s5 := Resuming(ForcedSlot(ForceRebooting, [BeforeScript(InactiveHandler)], {1}), c);
    var s6 := Resuming(ForcedSlot(ForceRebooting, [Exiting], {1}), c);
    SlotIsForced();
    DrainIsClosed();
    ThreadExits(c);
    var r := [];
    Then(s6, Php(0, 0, Report), AllYielded(), r);          r := [Php(0, 0, Report)] + r;
    Then(s5, Php(0, 0, Arm), s6, r);                       r := [Php(0, 0, Arm)] + r;
    Then(s4, Php(0, 0, Wake), s5, r);                      r := [Php(0, 0, Wake)] + r;
    Then(s3, Scaling(AdvanceAt(0)), s4, r);                r := [Scaling(AdvanceAt(0))] + r;
    Then(s2, Scaling(Advance(true)), s3, r);               r := [Scaling(Advance(true))] + r;
    Then(s1, Scaling(Advance(true)), s2, r);               r := [Scaling(Advance(true))] + r;
    Then(OneInactive(), Scaling(RebootAll), s1, r);
  }

  lemma TeardownLeg()
    ensures Run(AllYielded(), TeardownEvents()) == Next(EngineBack())
  {
    var s0 := AllYielded();
    var s1 := s0.(ctl := Yield({0}, {}, {}));
    var s2 := s0.(main := Main(Rebooting, MainParked), ctl := MainDown({0}));
    var s3 := s2.(main := Main(Rebooting, MainTeardown));
    var s4 := s2.(main := Main(YieldingForReboot, MainGone));
    var s5 := s4.(ctl := MainRespawn({0}));
    var s6 := s5.(main := Main(YieldingForReboot, MainBooting), ctl := MainBoot({0}));
    var none: set<nat> := {};
    assert {0} - {0} == none;
    assert Step(s0, Scaling(AdvanceAt(0))) == Next(s1);
    assert Step(s1, Scaling(Advance(true))) == Next(s2);
    assert Step(s4, Scaling(Advance(true))) == Next(s5);
    assert Step(s5, Scaling(Advance(true))) == Next(s6);
    var r := [];
    Then(s6, MainThread(BecomeReady), EngineBack(), r);    r := [MainThread(BecomeReady)] + r;
    Then(s5, Scaling(Advance(true)), s6, r);               r := [Scaling(Advance(true))] + r;
    Then(s4, Scaling(Advance(true)), s5, r);               r := [Scaling(Advance(true))] + r;
    Then(s3, MainThread(FinishTeardown), s4, r);           r := [MainThread(FinishTeardown)] + r;
    Then(s2, MainThread(LeaveWait), s3, r);                r := [MainThread(LeaveWait)] + r;
    Then(s1, Scaling(Advance(true)), s2, r);               r := [Scaling(Advance(true))] + r;
    Then(s0, Scaling(AdvanceAt(0)), s1, r);
  }

  /** The slot while its C thread is replaced. */
  function Resumed(rebooters: seq<Rebooter>, threads: seq<PhpPc>, replaced: nat): Slot {
    Slot(RebootReady, InactiveHandler, threads, rebooters, 2, {1}, 1, replaced, 0, false)
  }

  function Resuming(a: Slot, c: Controller): System {
    System([a], Main(Ready, MainParked), c)
  }

  lemma SlotIsResumed()
    ensures Step(EngineBack(), Scaling(Advance(true))) == Next(Resuming(YieldedSlot(), Resume({0})))
    ensures Step(Resuming(YieldedSlot(), Resume({0})), Scaling(AdvanceAt(0)))
         == Next(Resuming(Resumed([Rebooter(InactiveHandler, Waiting)], [], 0), ResumeWait(0, {})))
  {
    var none: set<nat> := {};
    assert {0} - {0} == none;
    Replace(YieldedSlot(), Resumed([Rebooter(InactiveHandler, Waiting)], [], 0));
  }

  lemma ReplacementIsCreated(c: Controller)
    ensures Step(Resuming(Resumed([Rebooter(InactiveHandler, Waiting)], [], 0), c), Reboot(0, 0, SeeRebootReady))
         == Next(Resuming(Resumed([Rebooter(InactiveHandler, Awake)], [], 0), c))
    ensures Step(Resuming(Resumed([Rebooter(InactiveHandler, Awake)], [], 0), c), Reboot(0, 0, Create(true)))
         == Next(Resuming(Resumed([], [Top], 1), c))
  {
    var waiting, awake := Rebooter(InactiveHandler, Waiting), Rebooter(InactiveHandler, Awake);
    Replace(waiting, awake);
    Replace(Resumed([waiting], [], 0), Resumed([awake], [], 0));
    Replace(Resumed([awake], [], 0), Resumed([], [Top], 1));
    assert [awake][..0] + [awake][1..] == [];
    assert Resumed([awake], [], 0).threads + [Top] == [Top];
  }

  lemma ReplacementArrives()
    ensures Step(Resuming(Resumed([], [Top], 1), ResumeWait(0, {})), Php(0, 0, Arm))
         == Next(Resuming(SlotAfterReboot(), ResumeWait(0, {})))
    ensures Step(Resuming(SlotAfterReboot(), ResumeWait(0, {})), Scaling(Advance(true)))
         == Next(Resuming(SlotAfterReboot(), Resume({})))
    ensures Step(Resuming(SlotAfterReboot(), Resume({})), Scaling(Advance(true))) == Next(JustRebooted())
  {
    Replace(Top, BeforeScript(InactiveHandler));
    Replace(Resumed([], [Top], 1), SlotAfterReboot());
  }

  lemma ResumeLeg()
    ensures Run(EngineBack(), ResumeEvents()) == Next(JustRebooted())
  {
    var s1 := Resuming(YieldedSlot(), Resume({0}));
    var s2 := Resuming(Resumed([Rebooter(InactiveHandler, Waiting)], [], 0), ResumeWait(0, {}));
    var s3 := Resuming(Resumed([Rebooter(InactiveHandler, Awake)], [], 0), ResumeWait(0, {}));
    var s4 := Resuming(Resumed([], [Top], 1), ResumeWait(0, {}));
    var s5 := Resuming(SlotAfterReboot(), ResumeWait(0, {}));
    var s6 := Resuming(SlotAfterReboot(), Resume({}));
    SlotIsResumed();
    ReplacementIsCreated(ResumeWait(0, {}));
    ReplacementArrives();
    var r := [];
    Then(s6, Scaling(Advance(true)), JustRebooted(), r);   r := [Scaling(Advance(true))] + r;
    Then(s5, Scaling(Advance(true)), s6, r);               r := [Scaling(Advance(true))] + r;
    Then(s4, Php(0, 0, Arm), s5, r);                       r := [Php(0, 0, Arm)] + r;
    Then(s3, Reboot(0, 0, Create(true)), s4, r);           r := [Reboot(0, 0, Create(true))] + r;
    Then(s2, Reboot(0, 0, SeeRebootReady), s3, r);         r := [Reboot(0, 0, SeeRebootReady)] + r;
    Then(s1, Scaling(AdvanceAt(0)), s2, r);                r := [Scaling(AdvanceAt(0))] + r;
    Then(EngineBack(), Scaling(Advance(true)), s1, r);
  }

  lemma {:induction false} RunConcat(s: System, first: seq<Event>, rest: seq<Event>)
    requires Run(s, first).Next?
    ensures Run(s, first + rest) == Run(Run(s, first).value, rest)
    decreases |first|
  {
    if first == [] {
      assert first + rest == rest;
    } else {
      assert (first + rest)[1..] == first[1..] + rest;
      match Step(s, first[0])
      case Disabled => RunConcat(s, first[1..], rest);
      case Next(s1) => RunConcat(s1, first[1..], rest);
    }
  }

  /** The state is reached from a freshly started system by a reboot of all threads. */
  lemma JustRebootedIsReachable()
    ensures Started(OneInactive())
    ensures Run(OneInactive(), YieldEvents() + (TeardownEvents() + ResumeEvents())) == Next(JustRebooted())
  {
    YieldLeg();
    RunConcat(OneInactive(), YieldEvents(), TeardownEvents() + ResumeEvents());
    TeardownLeg();
    RunConcat(AllYielded(), TeardownEvents(), ResumeEvents());
    ResumeLeg();
  }

  /** The C thread reads Inactive, a scaler is granted TransitionRequested, the C thread sets Inactive, the
      scaler closes the drain channel and waits. */
  function LossEvents(): seq<Event> {
    [Php(0, 0, Arm)] + ([Scaling(AddInactive(0, RegularHandler))] + ([Scaling(Advance(true))]
    + ([Php(0, 0, SetInactive)] + ([Scaling(Advance(true))] + []))))
  }

  function Deadlocked(): System {
    System([Slot(Inactive, InactiveHandler, [ParkedInactive], [], 2, {1, 2}, 1, 1, 0, true)],
           Main(Ready, MainParked), AwaitPark(0, RegularHandler, true))
  }

  lemma LossLeg()
    ensures Run(JustRebooted(), LossEvents()) == Next(Deadlocked())
  {
    var s0 := JustRebooted();
    var read := s0.slots[0].(threads := [SettingInactive]);
    var granted := read.(st := TransitionRequested);
    var late := granted.(st := Inactive, threads := [ParkedInactive], lost := true);
    var s1 := s0.(slots := [read]);
    var s2 := s1.(ctl := Request(0, RegularHandler, true));
    var s3 := s1.(slots := [granted], ctl := CloseDrain(0, RegularHandler, true));
    var s4 := s3.(slots := [late]);
    Replace(s0.slots[0], read);
    Replace(read, granted);
    Replace(granted, late);
    Replace(late, Deadlocked().slots[0]);
    Replace(BeforeScript(InactiveHandler), SettingInactive);
    Replace(SettingInactive, ParkedInactive);
    assert {1} + {2} == {1, 2};
    var r := [];
    Then(s4, Scaling(Advance(true)), Deadlocked(), r);                  r := [Scaling(Advance(true))] + r;
    Then(s3, Php(0, 0, SetInactive), s4, r);                            r := [Php(0, 0, SetInactive)] + r;
    Then(s2, Scaling(Advance(true)), s3, r);                            r := [Scaling(Advance(true))] + r;
    Then(s1, Scaling(AddInactive(0, RegularHandler)), s2, r);           r := [Scaling(AddInactive(0, RegularHandler))] + r;
    Then(s0, Php(0, 0, Arm), s1, r);
  }

  lemma DeadlockedIsStuck(e: Event)
    ensures Step(Deadlocked(), e).Disabled? && !Open(Deadlocked().slots[0])
  {
  }

  /** A run from startup in which a granted transition is lost; after it no participant can do anything any
      more, and the drain channel of the Inactive slot is closed. */
  lemma LostTransitionDeadlocks(e: Event)
    ensures Started(OneInactive())
    ensures Run(OneInactive(), YieldEvents() + (TeardownEvents() + ResumeEvents()) + LossEvents()) == Next(Deadlocked())
    ensures Step(Deadlocked(), e).Disabled? && !Open(Deadlocked().slots[0])
  {
    JustRebootedIsReachable();
    RunConcat(OneInactive(), YieldEvents() + (TeardownEvents() + ResumeEvents()), LossEvents());
    LossLeg();
    DeadlockedIsStuck(e);
  }
}

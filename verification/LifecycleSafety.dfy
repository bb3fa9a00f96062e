/**
  Every event preserves the invariant and never panics, hence so does every run; and what follows from
  that for the global engine: it is only torn down while no C thread is live.
 */
module LifecycleSafety {
  import opened Options
  import opened States
  import opened Lifecycle
  import opened LifecycleInvariant

  /** What Init may leave in a slot. Nobody waits for a regular thread to become ready, so its C thread
      may still be parked in its transition, or about to see that it is complete; older drain channels
      may have been closed. A worker thread was ready once, and may be anywhere in its loop. */
  predicate FreshSlot(a: Slot) {
    && a.rebooters == [] && a.won == a.replaced == a.released == 0 && !a.lost
    && (forall c | c in a.closed :: 0 < c < a.drain)
    && match a.st
       case Reserved => a.threads == []
       case Inactive => a.handler == InactiveHandler && a.threads == [ParkedInactive] && a.drain > 0
       case TransitionComplete =>
         Serves(a.handler) && a.drain > 0 && (a.threads == [ParkedTransition] || a.threads == [Top])
       case Ready =>
         Serves(a.handler) && a.drain > 0 && |a.threads| == 1 && Working(a.threads[0]) && PcOk(a, a.threads[0])
       case _ => false
  }

  /** The state right after Init: nobody holds scalingMu, and the main thread waits. */
  predicate Started(s: System) {
    s.ctl == Free && s.main == Main(Ready, MainParked)
    && forall i | 0 <= i < |s.slots| :: FreshSlot(s.slots[i])
  }

  ghost predicate Keeps(r: Result<System>) {
    !r.Panic? && (r.Next? ==> Inv(r.value))
  }

  /* ---------- each kind of event ---------- */

  lemma BootOk(s: System, ok: bool)
    requires Inv(s) && (s.ctl.BootWon? || s.ctl.BootReset? || s.ctl.BootWait?)
    ensures Keeps(BootStep(s, ok))
  {
    assert SlotOk(s.slots[s.ctl.i], RoleOf(s.ctl, s.ctl.i));
  }

  /** One slot and the controller move: the other slots keep their roles. */
  lemma PutOk(s: System, i: nat, a: Slot, c: Controller)
    requires Inv(s) && i < |s.slots|
    requires SlotOk(a, RoleOf(c, i))
    requires forall j | 0 <= j < |s.slots| && j != i :: RoleOf(c, j) == RoleOf(s.ctl, j)
    requires ControllerOk(s.(slots := s.slots[i := a], ctl := c))
    ensures Keeps(Put(s, i, a, c))
  {
  }

  lemma RequestOk(s: System)
    requires Inv(s) && s.ctl.Request?
    ensures Keeps(SetHandlerStep(s))
  {
    var Request(i, h, adding) := s.ctl;
    var a := s.slots[i];
    if SafeChangeIn(a.st) == Granted {
      TransitionWonOk(a, RoleOf(s.ctl, i));
      PutOk(s, i, a.(st := TransitionRequested), CloseDrain(i, h, adding));
    } else {
      assert SlotOk(a, RoleOf(s.ctl, i));
    }
  }

  lemma CloseDrainOk(s: System)
    requires Inv(s) && s.ctl.CloseDrain?
    ensures Keeps(SetHandlerStep(s))
  {
    var i, a := s.ctl.i, s.slots[s.ctl.i];
    assert SlotOk(a, ToClose);
    DrainClosedOk(a);
    PutOk(s, i, CloseChannel(a).value, AwaitPark(i, s.ctl.h, s.ctl.adding));
  }

  lemma AwaitParkOk(s: System)
    requires Inv(s) && s.ctl.AwaitPark?
    ensures Keeps(SetHandlerStep(s))
  {
    assert SlotOk(s.slots[s.ctl.i], ToPark);
  }

  lemma InstallOk(s: System)
    requires Inv(s) && s.ctl.Install?
    ensures Keeps(SetHandlerStep(s))
  {
    var i, a := s.ctl.i, s.slots[s.ctl.i];
    InstalledOk(a, s.ctl.h);
    PutOk(s, i, FreshDrain(a.(handler := s.ctl.h)), Complete(i, s.ctl.h, s.ctl.adding));
  }

  lemma CompleteOk(s: System)
    requires Inv(s) && s.ctl.Complete?
    ensures Keeps(SetHandlerStep(s))
  {
    var i, a := s.ctl.i, s.slots[s.ctl.i];
    CompletedOk(a);
    PutOk(s, i, a.(st := TransitionComplete), AfterSetHandler(i, s.ctl.adding));
  }

  lemma ForceOk(s: System)
    requires Inv(s) && s.ctl.Force?
    ensures Keeps(RebootAllStep(s))
  {
    if s.ctl.next < |s.slots| {
      assert SlotOk(s.slots[s.ctl.next], Unowned);
    }
  }

  lemma RebootAllOk(s: System)
    requires Inv(s)
    ensures Keeps(RebootAllStep(s))
  {
    if s.ctl.Force? {
      ForceOk(s);
    }
  }

  lemma YieldCloseOk(s: System, i: nat)
    requires Inv(s) && i < |s.slots| && s.ctl.Yield? && i in s.ctl.toClose
    ensures Keeps(RebootSlotStep(s, i))
  {
    var a, c := s.slots[i], s.ctl.(toClose := s.ctl.toClose - {i});
    assert SlotOk(a, Forced);
    ForcedClosedOk(a);
    PutOk(s, i, CloseChannel(a).value, c);
  }

  lemma YieldSlotOk(s: System, i: nat)
    requires Inv(s) && i < |s.slots| && s.ctl.Yield?
    ensures Keeps(RebootSlotStep(s, i))
  {
    if i in s.ctl.toClose {
      YieldCloseOk(s, i);
    } else if i in s.ctl.waiting && s.slots[i].st == YieldingForReboot {
      var c := s.ctl.(waiting := s.ctl.waiting - {i});
      assert SlotOk(s.slots[i], Draining);
      forall j | 0 <= j < |s.slots|
        ensures SlotOk(s.slots[j], RoleOf(c, j))
      {
        assert SlotOk(s.slots[j], RoleOf(s.ctl, j));
      }
    }
  }

  lemma ResumeSlotOk(s: System, i: nat)
    requires Inv(s) && i < |s.slots| && s.ctl.Resume?
    ensures Keeps(RebootSlotStep(s, i))
  {
    var todo, a := s.ctl.todo, s.slots[i];
    if i in todo {
      ResumedOk(a);
      PutOk(s, i, FreshDrain(a).(st := RebootReady), ResumeWait(i, todo - {i}));
    }
  }

  lemma RebootSlotOk(s: System, i: nat)
    requires Inv(s) && i < |s.slots|
    ensures Keeps(RebootSlotStep(s, i))
  {
    match s.ctl
    case Yield(_, _, _) => YieldSlotOk(s, i);
    case Resume(_) => ResumeSlotOk(s, i);
    case _ =>
  }

  lemma ShutRequestOk(s: System, i: nat)
    requires Inv(s) && i < |s.slots| && s.ctl.Drain? && s.ctl.phases[i] == ShutRequest
    ensures Keeps(ShutdownStep(s, i))
  {
    var a, ph := s.slots[i], s.ctl.phases;
    assert SlotOk(a, Unowned);
    if SafeChangeIn(a.st) == Granted {
      PutOk(s, i, a.(st := ShuttingDown), Drain(ph[i := ShutClose]));
    }
  }

  lemma ShutdownOk(s: System, i: nat)
    requires Inv(s) && i < |s.slots| && s.ctl.Drain?
    ensures Keeps(ShutdownStep(s, i))
  {
    var a, ph := s.slots[i], s.ctl.phases;
    assert SlotOk(a, ShutRole(ph[i]));
    match ph[i]
    case ShutRequest => ShutRequestOk(s, i);
    case ShutClose => ShutCloseOk(s, i);
    case ShutAwait =>
    case ShutFinish => PutOk(s, i, FreshDrain(a).(st := Reserved), Drain(ph[i := ShutOver]));
    case ShutJoin =>
    case ShutOver =>
  }

  lemma ShutCloseOk(s: System, i: nat)
    requires Inv(s) && i < |s.slots| && s.ctl.Drain? && s.ctl.phases[i] == ShutClose
    ensures Keeps(ShutdownStep(s, i))
  {
    var a := s.slots[i];
    assert SlotOk(a, ShutToClose);
    PutOk(s, i, CloseChannel(a).value, Drain(s.ctl.phases[i := ShutAwait]));
  }

  lemma LastPhaseOk(s: System, ok: bool)
    requires Inv(s) && (s.ctl.AwaitStable? || s.ctl.Drain? || s.ctl.DrainMain?)
    ensures Keeps(AdvanceStep(s, ok))
  {
  }

  lemma AdvanceOk(s: System, ok: bool)
    requires Inv(s)
    ensures Keeps(AdvanceStep(s, ok))
  {
    match s.ctl
    case BootWon(_, _) | BootReset(_, _) | BootWait(_, _) => BootOk(s, ok);
    case Request(_, _, _) => RequestOk(s);
    case CloseDrain(_, _, _) => CloseDrainOk(s);
    case AwaitPark(_, _, _) => AwaitParkOk(s);
    case Install(_, _, _) => InstallOk(s);
    case Complete(_, _, _) => CompleteOk(s);
    case AwaitStable(_) | Drain(_) | DrainMain => LastPhaseOk(s, ok);
    case _ => RebootAllOk(s);
  }

  /** Somebody takes scalingMu. */
  lemma BeginOk(s: System, act: ControllerAct)
    requires Inv(s) && s.ctl.Free? && !act.Advance? && !act.AdvanceAt?
    ensures Keeps(ControllerStep(s, act))
  {
    match act
    case AddInactive(i, _) =>
    case AddReserved(i, h) =>
      if ControllerStep(s, act).Next? {
        PutOk(s, i, s.slots[i].(st := BootRequested), BootWon(i, h));
      }
    case Deactivate(i) =>
    case RebootAll =>
    case DrainAll =>
  }

  lemma ControllerStepOk(s: System, act: ControllerAct)
    requires Inv(s)
    ensures Keeps(ControllerStep(s, act))
  {
    match act
    case Advance(ok) => AdvanceOk(s, ok);
    case AdvanceAt(i) =>
      if i < |s.slots| {
        if s.ctl.Drain? { ShutdownOk(s, i); } else { RebootSlotOk(s, i); }
      }
    case _ =>
      if s.ctl.Free? { BeginOk(s, act); }
  }

  lemma OnSlotOk(s: System, i: nat, r: Result<Slot>)
    requires Inv(s) && i < |s.slots| && !r.Panic?
    requires r.Next? ==> SlotOk(r.value, RoleOf(s.ctl, i))
    requires r.Next? ==> s.slots[i].threads != [] || s.slots[i].rebooters != []
    requires r.Next? ==> r.value.handler == s.slots[i].handler
    ensures Keeps(OnSlot(s, i, r))
  {
    if r.Next? && s.ctl.Free? {
      assert SlotOk(s.slots[i], Unowned);
    }
  }

  lemma StepOk(s: System, e: Event)
    requires Inv(s)
    ensures Keeps(Step(s, e))
  {
    match e
    case Php(i, k, act) =>
      if i < |s.slots| {
        PhpStepOk(s.slots[i], RoleOf(s.ctl, i), k, act);
        PhpKeepsHandler(s.slots[i], k, act);
        OnSlotOk(s, i, PhpStep(s.slots[i], k, act));
      }
    case Reboot(i, k, act) =>
      if i < |s.slots| {
        RebooterStepOk(s.slots[i], RoleOf(s.ctl, i), k, act);
        OnSlotOk(s, i, RebooterStep(s.slots[i], k, act));
      }
    case MainThread(act) =>
    case Scaling(act) => ControllerStepOk(s, act);
  }

  /* ---------- whole runs ---------- */

  lemma StartedOk(s: System)
    requires Started(s)
    ensures Inv(s)
  {
    forall i | 0 <= i < |s.slots|
      ensures SlotOk(s.slots[i], Unowned)
    {
      assert FreshSlot(s.slots[i]);
    }
  }

  lemma {:induction false} RunKeeps(s: System, events: seq<Event>)
    requires Inv(s)
    ensures Keeps(Run(s, events)) && Run(s, events).Next?
    decreases |events|
  {
    if events != [] {
      StepOk(s, events[0]);
      match Step(s, events[0])
      case Disabled => RunKeeps(s, events[1..]);
      case Next(s1) => RunKeeps(s1, events[1..]);
    }
  }

  /** No protocol panic is reachable: not the unexpected-state panics of the three handlers, not the
      panic of boot, not the one after a reboot, not a script finished by an inactive handler, and no
      nil or closed drain channel is ever closed. */
  lemma NoPanic(s: System, events: seq<Event>)
    requires Started(s)
    ensures Run(s, events).Next?
  {
    StartedOk(s);
    RunKeeps(s, events);
  }

  /** The main thread has been told to tear the engine down and has not come back yet. */
  predicate EngineDown(m: Main) {
    m.st in {Rebooting, YieldingForReboot, Done, Reserved} || m.pc != MainParked
  }

  lemma InvEngine(s: System)
    requires Inv(s) && EngineDown(s.main)
    ensures forall i | 0 <= i < |s.slots| :: s.slots[i].threads == []
  {
    forall i | 0 <= i < |s.slots|
      ensures s.slots[i].threads == []
    {
      assert SlotOk(s.slots[i], RoleOf(s.ctl, i));
    }
  }

  /** Whatever is in flight, from the moment the main thread is set to Rebooting or Done until it is
      Ready again, no slot has a live C thread: not before the teardown, not during it, not after it. */
  lemma EngineTeardownIsSafe(s: System, events: seq<Event>)
    requires Started(s)
    ensures Run(s, events).Next?
    ensures var t := Run(s, events).value;
            EngineDown(t.main) ==> forall i | 0 <= i < |t.slots| :: t.slots[i].threads == []
  {
    StartedOk(s);
    RunKeeps(s, events);
    var t := Run(s, events).value;
    if EngineDown(t.main) {
      InvEngine(t);
    }
  }

  /** The event starts a C thread in slot i: a thread more than before, or an unhealthy thread that starts
      its own replacement. */
  predicate StartsThread(s: System, e: Event, i: nat) {
    && i < |s.slots| && Step(s, e).Next? && i < |Step(s, e).value.slots|
    && (|s.slots[i].threads| < |Step(s, e).value.slots[i].threads|
        || (e.Php? && e.slot == i && e.act == Respawn(true)))
  }

  lemma StartingKeepsMain(s: System, e: Event, i: nat)
    requires StartsThread(s, e, i)
    ensures Step(s, e).value.main == s.main && Step(s, e).value.slots[i].threads != []
  {
    match e
    case Php(_, _, _) =>
    case Reboot(_, _, _) =>
    case MainThread(_) =>
    case Scaling(act) =>
  }

  /** A C thread is only ever started while the engine is up: when a slot boots, when a rebooter starts the
      replacement, and when an unhealthy thread does. */
  lemma ThreadsStartWithEngineUp(s: System, events: seq<Event>, e: Event, i: nat)
    requires Started(s) && Run(s, events).Next? && StartsThread(Run(s, events).value, e, i)
    ensures !EngineDown(Run(s, events).value.main)
    ensures !EngineDown(Step(Run(s, events).value, e).value.main)
  {
    StartedOk(s);
    RunKeeps(s, events);
    var t := Run(s, events).value;
    StepOk(t, e);
    StartingKeepsMain(t, e, i);
    if EngineDown(t.main) {
      InvEngine(Step(t, e).value);
      assert false;
    }
  }
}

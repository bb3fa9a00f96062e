/** What every run guarantees about reboots, drain channels and handlers. */
module LifecycleTheorems {
  import opened Options
  import opened States
  import opened Lifecycle
  import opened LifecycleInvariant
  import opened LifecycleSafety

  lemma RunSlotOk(s: System, events: seq<Event>, i: nat)
    requires Started(s) && Run(s, events).Next? && i < |Run(s, events).value.slots|
    ensures SlotOk(Run(s, events).value.slots[i], RoleOf(Run(s, events).value.ctl, i))
  {
    StartedOk(s);
    RunKeeps(s, events);
  }

  /** A reboot of this slot is won but its outcome is still open. */
  predicate RebootPending(a: Slot) {
    a.st in {Rebooting, ForceRebooting, YieldingForReboot} || (a.st == RebootReady && a.threads == [])
  }

  /** A forced reboot of this slot was granted and then overwritten: its rebooter waits in vain. */
  predicate LostReboot(a: Slot, role: Role) {
    a.lost && role in {Forced, Draining}
  }

  lemma SlotRebooters(a: Slot, role: Role)
    requires SlotOk(a, role)
    ensures |a.rebooters| == (if RebootPending(a) || LostReboot(a, role) then 1 else 0)
    ensures forall k | 0 <= k < |a.rebooters| :: a.rebooters[k].handler == a.handler
    ensures a.st == Reserved ==> a.threads == []
  {
  }

  /** Each slot has at most one live C thread and at most one rebooter. Every won reboot has led to
      exactly one replacement C thread or one release, except the one that is still pending or was lost. */
  lemma RebootsAreConserved(s: System, events: seq<Event>, i: nat)
    requires Started(s) && Run(s, events).Next? && i < |Run(s, events).value.slots|
    ensures var a := Run(s, events).value.slots[i];
            && |a.threads| <= 1
            && |a.rebooters| == (if RebootPending(a) || LostReboot(a, RoleOf(Run(s, events).value.ctl, i)) then 1 else 0)
            && a.won == a.replaced + a.released + |a.rebooters|
            && (forall k | 0 <= k < |a.rebooters| :: a.rebooters[k].handler == a.handler)
            && (a.st == Reserved ==> a.threads == [])
  {
    RunSlotOk(s, events, i);
    var t := Run(s, events).value;
    SlotRebooters(t.slots[i], RoleOf(t.ctl, i));
  }

  /** The roles in which the holder of scalingMu has closed the slot's drain channel. */
  predicate OwnsClosedChannel(role: Role) {
    role in {ToPark, ToInstall, Draining, Yielded, ShutDraining, ShutToFinish}
  }

  lemma SlotDrain(a: Slot, role: Role)
    requires SlotOk(a, role)
    ensures a.st in {Ready, Inactive} ==> (Open(a) <==> !(a.lost && OwnsClosedChannel(role)))
    ensures a.drain in a.closed <==> OwnsClosedChannel(role)
    ensures forall k | 0 <= k < |a.threads| && a.threads[k].RequestWait? :: a.threads[k].ch == a.drain
  {
  }

  /** The drain channel is open whenever the slot is Ready or Inactive, unless the slot is Inactive because
      a granted change was overwritten and its owner has closed the channel; it is closed exactly while the
      goroutine that won the state change owns it closed; and a C thread that selects on a drain channel
      selects on the current one. */
  lemma DrainChannelDiscipline(s: System, events: seq<Event>, i: nat)
    requires Started(s) && Run(s, events).Next? && i < |Run(s, events).value.slots|
    ensures var t := Run(s, events).value;
            var a := t.slots[i];
            && (a.st in {Ready, Inactive} ==> (Open(a) <==> !(a.lost && OwnsClosedChannel(RoleOf(t.ctl, i)))))
            && (a.drain in a.closed <==> OwnsClosedChannel(RoleOf(t.ctl, i)))
            && (forall k | 0 <= k < |a.threads| && a.threads[k].RequestWait? :: a.threads[k].ch == a.drain)
  {
    RunSlotOk(s, events, i);
    var t := Run(s, events).value;
    SlotDrain(t.slots[i], RoleOf(t.ctl, i));
  }

  lemma ScalingHandlerWrites(s: System, act: ControllerAct, i: nat)
    requires i < |s.slots| && ControllerStep(s, act).Next?
    requires ControllerStep(s, act).value.slots[i].handler != s.slots[i].handler
    ensures RoleOf(s.ctl, i) in {ToSpawn, ToInstall}
  {
    match act
    case Advance(ok) => assert s.ctl.BootReset? || s.ctl.Install?;
    case AdvanceAt(j) =>
    case _ =>
  }

  lemma HandlerWrites(s: System, e: Event, i: nat)
    requires i < |s.slots| && Step(s, e).Next?
    requires Step(s, e).value.slots[i].handler != s.slots[i].handler
    ensures RoleOf(s.ctl, i) in {ToSpawn, ToInstall}
  {
    match e
    case Php(j, k, act) => PhpKeepsHandler(s.slots[j], k, act);
    case Reboot(_, _, _) =>
    case MainThread(_) =>
    case Scaling(act) => ScalingHandlerWrites(s, act, i);
  }

  /** The handler of a slot is replaced only while no C thread is live there, or while its only C
      thread is parked in TransitionInProgress. */
  lemma HandlerReplacedWhileParked(s: System, events: seq<Event>, e: Event, i: nat)
    requires Started(s) && Run(s, events).Next? && Step(Run(s, events).value, e).Next?
    requires i < |Run(s, events).value.slots|
    requires var t := Run(s, events).value; Step(t, e).value.slots[i].handler != t.slots[i].handler
    ensures var a := Run(s, events).value.slots[i];
            a.threads == [] || (a.st == TransitionInProgress && a.threads == [ParkedTransition])
  {
    RunSlotOk(s, events, i);
    HandlerWrites(Run(s, events).value, e, i);
  }
}

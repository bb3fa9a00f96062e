/**
  What the tasks run under scalingMu achieve: when they may begin, that a thread ends up with the handler that
  was asked for, how they end, and what the single actions of C threads and rebooters do.
 */
module LifecycleTasks {
  import opened Options
  import opened States
  import opened Lifecycle
  import opened LifecycleInvariant
  import opened LifecycleSafety
  import opened LifecycleRace
  import opened LifecycleProgress

  /* ---------- beginning ---------- */

  predicate CanBegin(s: System, i: nat) {
    s.ctl == Free && i < |s.slots|
  }

  /** A thread is added to an Inactive or a Reserved slot, for a regular or a worker handler, only while the
      main thread is Ready. */
  lemma AddingBeginsIff(s: System, i: nat, h: Handler)
    ensures var r := Step(s, Scaling(AddInactive(i, h)));
            && (r.Next? <==> CanBegin(s, i) && s.main.st == Ready && s.slots[i].st == Inactive && (h == RegularHandler || h.WorkerHandler?))
            && (r.Next? ==> r.value == s.(ctl := Request(i, h, true)))
    ensures var r := Step(s, Scaling(AddReserved(i, h)));
            && (r.Next? <==> CanBegin(s, i) && s.main.st == Ready && s.slots[i].st == Reserved && (h == RegularHandler || h.WorkerHandler?))
            && (r.Next? ==> r.value == s.(slots := s.slots[i := s.slots[i].(st := BootRequested)], ctl := BootWon(i, h)))
  {
  }

  /** A thread is made inactive only if it is Ready; everything is rebooted or drained only while the main
      thread is Ready, from the first slot on. */
  lemma OtherTasksBeginIff(s: System, i: nat)
    ensures var r := Step(s, Scaling(Deactivate(i)));
            && (r.Next? <==> CanBegin(s, i) && s.slots[i].st == Ready)
            && (r.Next? ==> r.value == s.(ctl := Request(i, InactiveHandler, false)))
    ensures var r := Step(s, Scaling(RebootAll));
            (r.Next? <==> s.ctl == Free && s.main.st == Ready) && (r.Next? ==> r.value == s.(ctl := Force(0, {})))
    ensures var r := Step(s, Scaling(DrainAll));
            && (r.Next? <==> s.ctl == Free && s.main.st == Ready)
            && (r.Next? ==> r.value.slots == s.slots && r.value.main == s.main.(st := ShuttingDown) && r.value.ctl.Drain?
                            && |r.value.ctl.phases| == |s.slots| && forall k | 0 <= k < |s.slots| :: r.value.ctl.phases[k] == ShutRequest)
  {
  }

  /* ---------- the handler that was asked for ---------- */

  predicate IsTask(c: Controller) {
    c.BootWon? || c.BootReset? || c.BootWait? || c.Request? || c.CloseDrain? || c.AwaitPark? || c.Install? || c.Complete?
  }

  /** The task is to give slot i the handler h. */
  predicate Targets(c: Controller, i: nat, h: Handler) {
    IsTask(c) && c.i == i && c.h == h
  }

  /** A thread is being added, not taken out of service. */
  predicate Adding(c: Controller) {
    IsTask(c) && (c.BootWon? || c.BootReset? || c.BootWait? || c.adding)
  }

  /** How a task that gives slot i the handler h can end: it has it; or the change was refused, which never
      happens to a thread that is being added; or no C thread could be started. */
  ghost predicate Ended(u: System, v: System, i: nat, h: Handler) {
    && i < |u.slots| && i < |v.slots|
    && ( (u.ctl.Complete? && v.slots[i].handler == h && v.slots[i].st == TransitionComplete
          && v.ctl == (if Adding(u.ctl) then AwaitStable(i) else Free))
      || (u.ctl.Request? && !Adding(u.ctl) && u.slots[i].st in {Reserved, ShuttingDown, Done} && v == u.(ctl := Free))
      || (u.ctl.BootReset? && v.slots[i].st == Reserved && v.slots[i].threads == [] && v.ctl == Free))
  }

  /** A step either goes on with the same task, or ends it. */
  lemma TaskStep(s: System, e: Event, i: nat, h: Handler)
    requires Inv(s) && Targets(s.ctl, i, h) && Step(s, e).Next?
    ensures (Targets(Step(s, e).value.ctl, i, h) && Adding(Step(s, e).value.ctl) == Adding(s.ctl)) || Ended(s, Step(s, e).value, i, h)
    ensures e == GO && s.ctl.BootReset? ==> Step(s, e).value.ctl.BootWait?
  {
    assert i < |s.slots| && SlotOk(s.slots[i], RoleOf(s.ctl, i));
    match e
    case Php(_, _, _) =>
    case Reboot(_, _, _) =>
    case MainThread(_) =>
    case Scaling(act) =>
  }

  /** In every run, a task that is no longer there has ended in one of these ways. */
  lemma {:induction false} TaskEnds(s: System, events: seq<Event>, i: nat, h: Handler) returns (u: System, v: System)
    requires Inv(s) && Targets(s.ctl, i, h) && Run(s, events).Next? && !Targets(Run(s, events).value.ctl, i, h)
    ensures exists n | 0 <= n < |events| ::
              Run(s, events[..n]) == Next(u) && Targets(u.ctl, i, h) && Step(u, events[n]) == Next(v) && Ended(u, v, i, h)
    decreases |events|
  {
    var e, rest := events[0], events[1..];
    assert events[..0] == [];
    StepOk(s, e);
    match Step(s, e)
    case Disabled =>
      u, v := TaskEnds(s, rest, i, h);
      var n :| 0 <= n < |rest| && Run(s, rest[..n]) == Next(u) && Step(u, rest[n]) == Next(v);
      assert events[..n + 1][0] == e && events[..n + 1][1..] == rest[..n] && events[n + 1] == rest[n];
      assert Run(s, events[..n + 1]) == Next(u);
    case Next(s1) =>
      TaskStep(s, e, i, h);
      if Targets(s1.ctl, i, h) {
        u, v := TaskEnds(s1, rest, i, h);
        var n :| 0 <= n < |rest| && Run(s1, rest[..n]) == Next(u) && Step(u, rest[n]) == Next(v);
        assert events[..n + 1][0] == e && events[..n + 1][1..] == rest[..n] && events[n + 1] == rest[n];
        assert Run(s, events[..n + 1]) == Next(u);
      } else {
        u, v := s, s1;
        assert Run(s, events[..0]) == Next(u) && Step(u, events[0]) == Next(v);
      }
  }

  /** Whoever added a thread comes back only when its slot is Ready, Inactive or Reserved. */
  lemma AddingReturnsWhenStable(s: System, e: Event, i: nat)
    requires Inv(s) && s.ctl == AwaitStable(i) && Step(s, e).Next? && Step(s, e).value.ctl != s.ctl
    ensures Step(s, e).value == s.(ctl := Free) && i < |s.slots| && s.slots[i].st in {Ready, Inactive, Reserved}
  {
  }

  /* ---------- an added thread can become ready ---------- */

  /** The last part: the handler is installed, the slot gets ready, and the adding goroutine comes back. */
  lemma InstalledBecomesReady(s: System, i: nat, h: Handler) returns (events: seq<Event>)
    requires Fine(s) && s.ctl == AwaitStable(i) && i < |s.slots| && s.slots[i].handler == h && Serves(h)
    requires s.slots[i].st == TransitionComplete
    ensures Run(s, events).Next?
    ensures var t := Run(s, events).value;
            t.ctl == Free && i < |t.slots| && t.slots[i].st == Ready && t.slots[i].handler == h
  {
    var settle, b := SlotSettles(s, i);
    var s1 := s.(slots := s.slots[i := b]);
    assert SlotOk(b, RoleOf(s1.ctl, i)) && !Stuck(s1, i) by { assert s1.slots[i] == b; }
    if b.st != Ready {
      AtRest(b, Unowned);
    }
    var s2 := s1.(ctl := Free);
    RunOne(s1, GO, s2);
    RunConcat(s, settle, [GO]);
    events := settle + [GO];
  }

  /** From every state without a stuck slot in which a regular or worker thread is being added to slot i,
      some continuation makes it Ready with that handler and releases scalingMu. */
  lemma {:induction false} AddedThreadBecomesReady(s: System, i: nat, h: Handler) returns (events: seq<Event>)
    requires Fine(s) && Targets(s.ctl, i, h) && Adding(s.ctl) && (h == RegularHandler || h.WorkerHandler?)
    ensures Run(s, events).Next?
    ensures var t := Run(s, events).value;
            t.ctl == Free && i < |t.slots| && t.slots[i].st == Ready && t.slots[i].handler == h
    decreases Rank(s)
  {
    assert IsNext(s, i);
    var settle, s1 := NextSlotSettles(s, i);
    var e, s2 := ControllerAdvances(s1, i);
    TaskStep(s1, e, i, h);
    RunOne(s1, e, s2);
    RunConcat(s, settle, [e]);
    var rest: seq<Event>;
    if Targets(s2.ctl, i, h) {
      rest := AddedThreadBecomesReady(s2, i, h);
    } else {
      rest := InstalledBecomesReady(s2, i, h);
    }
    RunConcat(s, settle + [e], rest);
    events := settle + [e] + rest;
  }

  /** Whenever a thread may be added to slot i and no granted change is lost, adding it can succeed. */
  lemma AddingCanSucceed(s: System, i: nat, h: Handler) returns (events: seq<Event>)
    requires Inv(s) && (forall j | 0 <= j < |s.slots| :: !Doomed(s.slots[j]))
    requires CanBegin(s, i) && s.main.st == Ready && s.slots[i].st in {Inactive, Reserved} && (h == RegularHandler || h.WorkerHandler?)
    ensures Run(s, events).Next?
    ensures var t := Run(s, events).value;
            t.ctl == Free && i < |t.slots| && t.slots[i].st == Ready && t.slots[i].handler == h
  {
    var e := if s.slots[i].st == Inactive then Scaling(AddInactive(i, h)) else Scaling(AddReserved(i, h));
    AddingBeginsIff(s, i, h);
    StepOk(s, e);
    var s1 := Step(s, e).value;
    forall j | 0 <= j < |s1.slots|
      ensures !Stuck(s1, j)
    {
      assert !Doomed(s.slots[j]) && SlotOk(s.slots[j], Unowned);
    }
    var rest := AddedThreadBecomesReady(s1, i, h);
    RunOne(s, e, s1);
    RunConcat(s, [e], rest);
    events := [e] + rest;
  }

  /* ---------- what would panic ---------- */

  /** A handler panics exactly in the states it has no arm for. */
  lemma ArmPanicsIff(a: Slot, k: nat, w: nat)
    requires k < |a.threads|
    ensures RunArm(a, k, InactiveHandler).Panic?
       <==> a.st in {Reserved, BootRequested, Done, Ready, TransitionInProgress, YieldingForReboot}
    ensures RunArm(a, k, RegularHandler).Panic?
       <==> a.st in {Reserved, Booting, BootRequested, Done, Inactive, TransitionInProgress, YieldingForReboot}
    ensures RunArm(a, k, WorkerHandler(w)).Panic? <==> RunArm(a, k, RegularHandler).Panic?
    ensures RunArm(a, k, NoHandler).Panic?
  {
  }

  /** A script that ends panics exactly if the slot's handler did not start it, and one that asks for a
      request exactly if that handler is not a worker's. */
  lemma ScriptPanicsIff(a: Slot, k: nat)
    requires k < |a.threads| && a.threads[k].Script?
    ensures PhpStep(a, k, ScriptEnd).Panic? <==> a.handler in {NoHandler, InactiveHandler} || a.handler != a.threads[k].via
    ensures PhpStep(a, k, Bailout).Panic? <==> PhpStep(a, k, ScriptEnd).Panic?
    ensures PhpStep(a, k, HandleRequest).Panic? <==> a.threads[k].via.WorkerHandler? && !a.handler.WorkerHandler?
  {
  }

  /** The holder of scalingMu panics exactly if it boots a slot that is not free, resumes one that did not
      yield, or closes a drain channel that is not open. */
  lemma ControllerPanicsIff(s: System, act: ControllerAct)
    ensures Step(s, Scaling(act)).Panic?
       <==> || (act.Advance? && s.ctl.BootWon? && s.ctl.i < |s.slots| && s.slots[s.ctl.i].st !in {Reserved, BootRequested})
            || (act.Advance? && s.ctl.CloseDrain? && s.ctl.i < |s.slots| && !Open(s.slots[s.ctl.i]))
            || (act.AdvanceAt? && act.i < |s.slots| && s.ctl.Yield? && act.i in s.ctl.toClose && !Open(s.slots[act.i]))
            || (act.AdvanceAt? && act.i < |s.slots| && s.ctl.Resume? && act.i in s.ctl.todo && s.slots[act.i].st != YieldingForReboot)
            || (act.AdvanceAt? && act.i < |s.slots| && s.ctl.Drain? && act.i < |s.ctl.phases| && s.ctl.phases[act.i] == ShutClose
                && !Open(s.slots[act.i]))
  {
    match act
    case Advance(ok) =>
    case AdvanceAt(i) =>
    case _ =>
  }

  /* ---------- single actions ---------- */

  /** At the request limit a Ready thread wins its reboot, whose rebooter has the thread's handler, and the
      thread ends, or returns from frankenphp_handle_request; in any other state it goes on to wait. */
  lemma RebootIsWonIff(a: Slot, k: nat)
    requires k < |a.threads| && a.threads[k].RequestEntry?
    ensures var r, via := PhpStep(a, k, MaxRequests), a.threads[k].via;
            && r.Next? && |r.value.threads| == |a.threads|
            && (a.st == Ready ==> && r.value.st == Rebooting && r.value.won == a.won + 1
                                  && r.value.rebooters == a.rebooters + [Rebooter(a.handler, Waiting)]
                                  && r.value.threads[k] == (if via.RegularHandler? then Exiting else Script(via)))
            && (a.st != Ready ==> && r.value.won == a.won && r.value.rebooters == a.rebooters
                                  && r.value.threads[k] == RequestWait(via, a.drain))
  {
  }

  /** A regular script only ever starts for a request that was received, and a worker only ever waits for a
      request because its running script asks for one. */
  lemma ScriptsAndRequests(a: Slot, k: nat, act: PhpAct)
    requires k < |a.threads| && PhpStep(a, k, act).Next? && k < |PhpStep(a, k, act).value.threads|
    requires PhpStep(a, k, act).value.threads[k] != a.threads[k] && |a.threads| == 1
    ensures var pc := PhpStep(a, k, act).value.threads[k];
            && (pc.Script? && pc.via.RegularHandler? ==> act == Serve && a.threads[k].RequestWait?)
            && (pc.RequestEntry? && pc.via.WorkerHandler? ==> act == HandleRequest && a.threads[k].Script?)
  {
  }

  /** A worker that is ready, or new, runs its script; a regular thread waits for a request. */
  lemma ReadyArms(a: Slot, k: nat, w: nat)
    requires k < |a.threads| && a.st in {Ready, TransitionComplete}
    ensures RunArm(a, k, WorkerHandler(w)) == Next(a.(threads := a.threads[k := Script(WorkerHandler(w))]))
    ensures RunArm(a, k, RegularHandler) == Next(a.(st := Ready, threads := a.threads[k := RequestEntry(RegularHandler)]))
  {
  }

  /** A wait for requests ends without one exactly when its drain channel was closed; a regular thread then
      looks at its state again, a worker's script gets false. */
  lemma DrainedIff(a: Slot, k: nat)
    requires k < |a.threads|
    ensures PhpStep(a, k, Drained).Next? <==> a.threads[k].RequestWait? && a.threads[k].ch in a.closed
    ensures PhpStep(a, k, Drained).Next? ==>
              var via := a.threads[k].via;
              PhpStep(a, k, Drained).value == a.(threads := a.threads[k := if via.RegularHandler? then BeforeScript(via) else Script(via)])
  {
  }

  /** A parked inactive thread wakes for a handler change, a shutdown or a reboot, a thread parked in its
      transition when that is complete, and neither for anything else. */
  lemma WakesIff(a: Slot, k: nat)
    requires k < |a.threads|
    ensures a.threads[k] == ParkedInactive ==>
              (PhpStep(a, k, Wake).Next? <==> a.st in {TransitionRequested, ShuttingDown, Rebooting, ForceRebooting})
    ensures a.threads[k] == ParkedTransition ==> (PhpStep(a, k, Wake).Next? <==> a.st == TransitionComplete)
    ensures PhpStep(a, k, Wake).Next? ==> a.threads[k] in {ParkedInactive, ParkedTransition} && PhpStep(a, k, Wake).value.st == a.st
  {
  }

  /** A replacement that is created is one C thread more and one rebooter less; one that is not leaves the
      slot to be released as Reserved, without a C thread more. */
  lemma ReplacementOrRelease(a: Slot, k: nat)
    requires k < |a.rebooters| && a.rebooters[k].phase == Awake
    ensures var yes, no := RebooterStep(a, k, Create(true)), RebooterStep(a, k, Create(false));
            && yes.Next? && yes.value.threads == a.threads + [Top] && yes.value.replaced == a.replaced + 1
            && yes.value.rebooters == a.rebooters[..k] + a.rebooters[k + 1..] && yes.value.st == a.st && yes.value.released == a.released
            && no.Next? && no.value == a.(rebooters := a.rebooters[k := a.rebooters[k].(phase := Releasing)])
            && var end := RebooterStep(no.value, k, Release);
               && end.Next? && end.value.st == Reserved && end.value.threads == a.threads
               && end.value.released == a.released + 1 && end.value.replaced == a.replaced
               && end.value.rebooters == a.rebooters[..k] + a.rebooters[k + 1..]
  {
    var no := RebooterStep(a, k, Create(false)).value;
    assert no.rebooters[..k] + no.rebooters[k + 1..] == a.rebooters[..k] + a.rebooters[k + 1..];
  }

  /** A rebooter goes on exactly when the slot is RebootReady. */
  lemma RebooterWakesIff(a: Slot, k: nat)
    requires k < |a.rebooters| && a.rebooters[k].phase == Waiting
    ensures RebooterStep(a, k, SeeRebootReady).Next? <==> a.st == RebootReady
    ensures !RebooterStep(a, k, Create(true)).Next? && !RebooterStep(a, k, Create(false)).Next? && !RebooterStep(a, k, Release).Next?
  {
  }

  /** A thread whose script ended in a bailout does nothing any more but start its replacement; if that
      fails the slot is left without a C thread, and nothing else changes. */
  lemma UnhealthyThreadIsReplaced(a: Slot, act: PhpAct)
    requires |a.threads| == 1 && a.threads[0].Script? && a.threads[0].via == a.handler && Serves(a.handler)
    ensures var b := PhpStep(a, 0, Bailout);
            && b == Next(a.(threads := [Respawning]))
            && (PhpStep(b.value, 0, act).Next? <==> act.Respawn?)
            && PhpStep(b.value, 0, Respawn(true)) == Next(a.(threads := [Top]))
            && PhpStep(b.value, 0, Respawn(false)) == Next(a.(threads := []))
  {
    var b := a.(threads := [Respawning]);
    assert a.threads[0 := Respawning] == [Respawning];
    assert b.threads[0 := Top] == [Top];
    assert b.threads[..0] + b.threads[1..] == [];
  }

  /** A booting slot gets a C thread of the inactive handler, or is Reserved again if there is none to get. */
  lemma BootOutcome(s: System, i: nat, h: Handler)
    requires s.ctl == BootReset(i, h) && i < |s.slots|
    ensures var a := s.slots[i];
            var yes, no := Step(s, Scaling(Advance(true))), Step(s, Scaling(Advance(false)));
            && yes.Next? && yes.value.ctl == BootWait(i, h) && yes.value.slots[i].handler == InactiveHandler
            && yes.value.slots[i].threads == a.threads + [Top] && yes.value.slots[i].drain == a.drain + 1
            && no.Next? && no.value.ctl == Free && no.value.slots[i].st == Reserved && no.value.slots[i].threads == a.threads
  {
  }

  /** What may happen to the drain channels of a slot: nothing; the current one, open, is closed, and nothing
      else changes; or there is a next one. */
  predicate ChannelStep(a: Slot, b: Slot) {
    || (b.drain == a.drain && b.closed == a.closed)
    || (Open(a) && b == a.(closed := a.closed + {a.drain}))
    || (b.drain == a.drain + 1 && b.closed == a.closed)
  }

  lemma PhpKeepsChannels(a: Slot, k: nat, act: PhpAct)
    ensures PhpStep(a, k, act).Next? ==> PhpStep(a, k, act).value.drain == a.drain && PhpStep(a, k, act).value.closed == a.closed
  {
  }

  lemma AdvanceChannels(s: System, ok: bool, i: nat)
    requires i < |s.slots| && AdvanceStep(s, ok).Next?
    ensures i < |AdvanceStep(s, ok).value.slots| && ChannelStep(s.slots[i], AdvanceStep(s, ok).value.slots[i])
  {
    match s.ctl
    case BootWon(_, _) | BootReset(_, _) | BootWait(_, _) =>
    case Request(_, _, _) | CloseDrain(_, _, _) | AwaitPark(_, _, _) | Install(_, _, _) | Complete(_, _, _) =>
    case _ =>
  }

  lemma RebootSlotChannels(s: System, j: nat, i: nat)
    requires i < |s.slots| && j < |s.slots| && RebootSlotStep(s, j).Next?
    ensures i < |RebootSlotStep(s, j).value.slots| && ChannelStep(s.slots[i], RebootSlotStep(s, j).value.slots[i])
  {
  }

  lemma ShutdownChannels(s: System, j: nat, i: nat)
    requires i < |s.slots| && j < |s.slots| && s.ctl.Drain? && ShutdownStep(s, j).Next?
    ensures i < |ShutdownStep(s, j).value.slots| && ChannelStep(s.slots[i], ShutdownStep(s, j).value.slots[i])
  {
  }

  lemma ScalingChannels(s: System, act: ControllerAct, i: nat)
    requires i < |s.slots| && ControllerStep(s, act).Next?
    ensures i < |ControllerStep(s, act).value.slots| && ChannelStep(s.slots[i], ControllerStep(s, act).value.slots[i])
  {
    match act
    case Advance(ok) => AdvanceChannels(s, ok, i);
    case AdvanceAt(j) => if s.ctl.Drain? { ShutdownChannels(s, j, i); } else { RebootSlotChannels(s, j, i); }
    case _ =>
  }

  /** Only the holder of scalingMu closes a drain channel or makes a new one; it closes only an open one, so
      none twice, and a new one is one nobody had before. */
  lemma ChannelsAreClosedOnce(s: System, e: Event, i: nat)
    requires Inv(s) && i < |s.slots| && Step(s, e).Next?
    ensures var a, b := s.slots[i], Step(s, e).value.slots[i];
            && (b.closed != a.closed ==> e.Scaling? && Open(a) && b == a.(closed := a.closed + {a.drain}))
            && (b.drain != a.drain ==> e.Scaling? && b.drain == a.drain + 1 && Open(b))
  {
    assert SlotOk(s.slots[i], RoleOf(s.ctl, i));
    match e
    case Php(j, k, act) => PhpKeepsChannels(s.slots[j], k, act);
    case Reboot(_, _, _) =>
    case MainThread(_) =>
    case Scaling(act) => ScalingChannels(s, act, i);
  }
}

/**
  Handing requests to PHP threads (worker.go handleRequest, threadregular.go
  handleRequestWithRegularPHPThreads, the two waitForRequest functions, the ends of requests and scripts in
  threadworker.go, context.go closeContext). Request channels are unbuffered: a send and its receive are
  one event. A worker script may call frankenphp_handle_request whenever it runs, also inside a callback.
 */
module Dispatch {
  import opened Options

  datatype Outcome = Delivered | Cancelled | TimedOut | Stopped

  /** Where the goroutine that dispatches a request is. */
  datatype DispatchPc =
    | Fresh                          // about to read the queue counter
    | Scanning                       // offering the request to the pool's threads one by one
    | Queueing                       // about to increment the queue counter
    | Queued                         // in the select loop
    | Leaving(why: Outcome)          // out of the select, about to decrement the queue counter
    | Rejecting                      // about to reject the request
    | Awaiting                       // waiting for the done channel
    | Returned(how: Outcome)

  /** `closes` counts how often the done channel was closed; `servedBy` logs every delivery. */
  datatype Request = Request(pool: nat, pc: DispatchPc, isDone: bool, closes: nat, servedBy: seq<nat>)

  datatype ThreadPc =
    | NoScript     // between two scripts
    | Waiting      // selecting on the drain channel and the request channels
    | Running      // executing PHP code
    | Finishing    // go_frankenphp_finish_worker_request closed the context, and is about to clear it
    | Ending       // the script ended and its context was closed, about to be cleared

  /** `context` is the request the handler holds; `callbacks` counts the active callbacks of
      frankenphp_handle_request. */
  datatype Thread = Thread(worker: bool, pool: nat, pc: ThreadPc, context: Option<nat>, callbacks: nat)

  datatype System = System(requests: seq<Request>, threads: seq<Thread>, queued: seq<int>)

  datatype Event =
    | Arrive(pool: nat)
    | Load(r: nat)                   // read the queue counter
    | Offer(r: nat, t: nat)          // thread.requestChan <- fc, during the scan
    | GiveUp(r: nat)                 // no thread was available
    | Enqueue(r: nat)
    | Take(r: nat, t: nat)           // requestChan <- fc, from the queue
    | Leave(r: nat, why: Outcome)    // cancelled, timed out, or the worker was stopped
    | Decrement(r: nat)
    | Reject(r: nat)
    | SeeDone(r: nat)
    | Convert(t: nat, worker: bool, pool: nat)   // a thread without a script gets a new handler
    | StartScript(t: nat)            // a worker script is started
    | Wait(t: nat)                   // a regular thread asks for a request
    | HandleRequest(t: nat)          // the worker script calls frankenphp_handle_request
    | Drain(t: nat)                  // the wait ends without a request
    | FinishEarly(t: nat)            // frankenphp_finish_request() or fastcgi_finish_request()
    | CallbackReturns(t: nat)        // go_frankenphp_finish_worker_request, up to closeContext
    | ScriptEnds(t: nat)             // afterScriptExecution, up to closeContext
    | Clear(t: nat)                  // the context is set to nil

  /** closeContext: closing a closed channel would panic. */
  function CloseContext(q: Request): Result<Request> {
    if q.isDone then Next(q)
    else if q.closes > 0 then Panic
    else Next(q.(isDone := true, closes := 1))
  }

  function PutRequest(s: System, r: nat, q: Request): System
    requires r < |s.requests|
  {
    s.(requests := s.requests[r := q])
  }

  function PutThread(s: System, t: nat, th: Thread): System
    requires t < |s.threads|
  {
    s.(threads := s.threads[t := th])
  }

  function Count(s: System, pool: nat, delta: int): System {
    if pool < |s.queued| then s.(queued := s.queued[pool := s.queued[pool] + delta]) else s
  }

  /** The thread's handler holds the request from now on, whatever it held before. */
  function Receive(th: Thread, r: nat): Thread {
    th.(pc := Running, context := Some(r), callbacks := if th.worker then th.callbacks + 1 else 0)
  }

  function Deliver(s: System, r: nat, t: nat, pc: DispatchPc): System
    requires r < |s.requests| && t < |s.threads|
  {
    var q := s.requests[r];
    PutThread(PutRequest(s, r, q.(pc := pc, servedBy := q.servedBy + [t])), t, Receive(s.threads[t], r))
  }

  /** Closes the request the handler holds, if it holds one, and moves the thread on. A worker's handler
      that holds none falls back to the context of its boot, which nobody waits for. */
  function CloseHeld(s: System, t: nat, next: Thread): Result<System>
    requires t < |s.threads|
  {
    match s.threads[t].context
    case None => Next(PutThread(s, t, next))
    case Some(r) =>
      if r >= |s.requests| then Disabled else
      match CloseContext(s.requests[r])
      case Next(q) => Next(PutThread(PutRequest(s, r, q), t, next))
      case _ => Panic
  }

  function DispatcherStep(s: System, e: Event): Result<System> {
    match e
    case Arrive(pool) =>
      if pool < |s.queued|
      then Next(s.(requests := s.requests + [Request(pool, Fresh, false, 0, [])])) else Disabled
    case Load(r) =>
      if r < |s.requests| && s.requests[r].pc == Fresh && s.requests[r].pool < |s.queued|
      then Next(PutRequest(s, r, s.requests[r].(pc := if s.queued[s.requests[r].pool] == 0 then Scanning else Queueing)))
      else Disabled
    case Offer(r, t) =>
      if r < |s.requests| && t < |s.threads| && s.requests[r].pc == Scanning
         && s.threads[t].pc == Waiting && s.threads[t].pool == s.requests[r].pool
      then Next(Deliver(s, r, t, Awaiting)) else Disabled
    case GiveUp(r) =>
      if r < |s.requests| && s.requests[r].pc == Scanning
      then Next(PutRequest(s, r, s.requests[r].(pc := Queueing))) else Disabled
    case Enqueue(r) =>
      if r < |s.requests| && s.requests[r].pc == Queueing
      then Next(Count(PutRequest(s, r, s.requests[r].(pc := Queued)), s.requests[r].pool, 1)) else Disabled
    case Take(r, t) =>
      if r < |s.requests| && t < |s.threads| && s.requests[r].pc == Queued
         && s.threads[t].pc == Waiting && s.threads[t].pool == s.requests[r].pool
      then Next(Deliver(s, r, t, Leaving(Delivered))) else Disabled
    case Leave(r, why) =>
      if r < |s.requests| && s.requests[r].pc == Queued && why != Delivered
      then Next(PutRequest(s, r, s.requests[r].(pc := Leaving(why)))) else Disabled
    case Decrement(r) =>
      if r < |s.requests| && s.requests[r].pc.Leaving? then
        var q := s.requests[r];
        var pc := match q.pc.why
                  case Delivered => Awaiting
                  case TimedOut => Rejecting
                  case Cancelled => Returned(Cancelled)
                  case Stopped => Returned(Stopped);
        Next(Count(PutRequest(s, r, q.(pc := pc)), q.pool, -1))
      else Disabled
    case Reject(r) =>
      if r < |s.requests| && s.requests[r].pc == Rejecting then
        (match CloseContext(s.requests[r])
         case Next(q) => Next(PutRequest(s, r, q.(pc := Returned(TimedOut))))
         case _ => Panic)
      else Disabled
    case SeeDone(r) =>
      if r < |s.requests| && s.requests[r].pc == Awaiting && s.requests[r].closes > 0
      then Next(PutRequest(s, r, s.requests[r].(pc := Returned(Delivered)))) else Disabled
    case _ => Disabled
  }

  predicate IsThreadEvent(e: Event) {
    e.Convert? || e.StartScript? || e.Wait? || e.HandleRequest? || e.Drain? || e.FinishEarly?
    || e.CallbackReturns? || e.ScriptEnds? || e.Clear?
  }

  function ThreadStep(s: System, e: Event): Result<System>
    requires IsThreadEvent(e)
  {
    if e.t >= |s.threads| then Disabled else
    var t, th := e.t, s.threads[e.t];
    match e
    case Convert(_, worker, pool) =>
      if th.pc == NoScript then Next(PutThread(s, t, Thread(worker, pool, NoScript, None, 0))) else Disabled
    case StartScript(_) =>
      if th.worker && th.pc == NoScript then Next(PutThread(s, t, th.(pc := Running))) else Disabled
    case Wait(_) =>
      if !th.worker && th.pc == NoScript then Next(PutThread(s, t, th.(pc := Waiting))) else Disabled
    case HandleRequest(_) =>
      if th.worker && th.pc == Running then Next(PutThread(s, t, th.(pc := Waiting))) else Disabled
    case Drain(_) =>
      if th.pc == Waiting then Next(PutThread(s, t, th.(pc := if th.worker then Running else NoScript))) else Disabled
    case FinishEarly(_) => if th.pc == Running then CloseHeld(s, t, th) else Disabled
    case CallbackReturns(_) =>
      if th.worker && th.pc == Running && th.callbacks > 0
      then CloseHeld(s, t, th.(pc := Finishing, callbacks := th.callbacks - 1)) else Disabled
    case ScriptEnds(_) =>
      if th.pc != Running then Disabled
      else if !th.worker && th.context.None? then Panic     // handler.fc is nil in afterRequest
      else CloseHeld(s, t, th.(pc := Ending, callbacks := 0))
    case Clear(_) =>
      if th.pc == Finishing then Next(PutThread(s, t, th.(pc := Running, context := None)))
      else if th.pc == Ending then Next(PutThread(s, t, th.(pc := NoScript, context := None)))
      else Disabled
  }

  function Step(s: System, e: Event): Result<System> {
    if IsThreadEvent(e) then ThreadStep(s, e) else DispatcherStep(s, e)
  }

  function Run(s: System, events: seq<Event>): Result<System>
    decreases |events|
  {
    if events == [] then Next(s) else
    match Step(s, events[0])
    case Panic => Panic
    case Disabled => Run(s, events[1..])
    case Next(s1) => Run(s1, events[1..])
  }

  /* ---------- the invariant ---------- */

  /** Between its increment and its decrement of the queue counter. */
  predicate InQueue(q: Request, pool: nat) {
    q.pool == pool && (q.pc == Queued || q.pc.Leaving?)
  }

  function Waiters(requests: seq<Request>, pool: nat): nat {
    if requests == [] then 0 else
    var n := |requests| - 1;
    Waiters(requests[..n], pool) + (if InQueue(requests[n], pool) then 1 else 0)
  }

  predicate HandedOver(pc: DispatchPc) {
    pc in {Leaving(Delivered), Awaiting, Returned(Delivered)}
  }

  predicate RequestOk(s: System, r: nat)
    requires r < |s.requests|
  {
    var q := s.requests[r];
    && q.pool < |s.queued|
    && q.closes <= 1 && (q.isDone <==> q.closes == 1)
    && (if HandedOver(q.pc) then
          |q.servedBy| == 1 && q.servedBy[0] < |s.threads| && (q.pc == Returned(Delivered) ==> q.closes == 1)
        else q.servedBy == [] && q.closes == if q.pc == Returned(TimedOut) then 1 else 0)
  }

  /** What a handler holds was delivered to it. A regular handler holds a request exactly while its script
      runs; a worker's holds none between two scripts. */
  predicate ThreadOk(s: System, t: nat)
    requires t < |s.threads|
  {
    var th := s.threads[t];
    && (th.context.Some? ==>
          var r := th.context.value;
          && r < |s.requests| && s.requests[r].servedBy == [t] && s.requests[r].pool == th.pool
          && (th.pc in {Finishing, Ending} ==> s.requests[r].closes == 1))
    && (th.pc == NoScript ==> th.context.None?)
    && (th.pc in {NoScript, Ending} ==> th.callbacks == 0)
    && (!th.worker ==> (th.context.Some? <==> th.pc in {Running, Ending}) && th.callbacks == 0 && th.pc != Finishing)
  }

  ghost predicate Inv(s: System) {
    && (forall r | 0 <= r < |s.requests| :: RequestOk(s, r))
    && (forall t | 0 <= t < |s.threads| :: ThreadOk(s, t))
    && (forall p | 0 <= p < |s.queued| :: s.queued[p] == Waiters(s.requests, p))
  }

  lemma {:induction false} WaitersPut(requests: seq<Request>, r: nat, q: Request, pool: nat)
    requires r < |requests|
    ensures Waiters(requests[r := q], pool)
         == Waiters(requests, pool) - (if InQueue(requests[r], pool) then 1 else 0) + (if InQueue(q, pool) then 1 else 0)
  {
    var n := |requests| - 1;
    if r < n {
      WaitersPut(requests[..n], r, q, pool);
      assert requests[r := q][..n] == requests[..n][r := q];
    } else {
      assert requests[r := q][..n] == requests[..n];
    }
  }

  /** Threads move, with contexts they had or none. */
  lemma ThreadMovesOk(s: System, t: nat, th: Thread)
    requires Inv(s) && t < |s.threads| && ThreadOk(PutThread(s, t, th), t)
    ensures Inv(PutThread(s, t, th))
  {
    var s1 := PutThread(s, t, th);
    forall r | 0 <= r < |s1.requests| ensures RequestOk(s1, r) { assert RequestOk(s, r); }
    forall u | 0 <= u < |s1.threads| ensures ThreadOk(s1, u) { assert ThreadOk(s, u); }
  }

  /** A request moves, without being delivered, and its pool's counter by the right amount. */
  lemma RequestMovesOk(s: System, r: nat, q: Request, s1: System)
    requires Inv(s) && r < |s.requests| && q.pool == s.requests[r].pool
    requires s1.requests == s.requests[r := q] && s1.threads == s.threads && |s1.queued| == |s.queued|
    requires forall p | 0 <= p < |s.queued| ::
               s1.queued[p] == s.queued[p] - (if InQueue(s.requests[r], p) then 1 else 0) + (if InQueue(q, p) then 1 else 0)
    requires q.servedBy == s.requests[r].servedBy && q.closes >= s.requests[r].closes
    requires RequestOk(s1, r)
    ensures Inv(s1)
  {
    forall p | 0 <= p < |s1.queued|
      ensures s1.queued[p] == Waiters(s1.requests, p)
    {
      WaitersPut(s.requests, r, q, p);
    }
    forall i | 0 <= i < |s1.requests| ensures RequestOk(s1, i) { assert RequestOk(s, i); }
    forall u | 0 <= u < |s1.threads| ensures ThreadOk(s1, u) { assert ThreadOk(s, u); }
  }

  /** A thread closes what it holds and moves on, still holding it. */
  lemma CloseHeldOk(s: System, t: nat, next: Thread)
    requires Inv(s) && t < |s.threads| && next.context == s.threads[t].context
    requires next.worker == s.threads[t].worker && next.pool == s.threads[t].pool
    requires s.threads[t].pc == Running && next.pc in {Running, Finishing, Ending} && (!next.worker ==> next.pc != Finishing)
    requires !next.worker || next.pc == Ending ==> next.callbacks == 0
    ensures CloseHeld(s, t, next).Next? && Inv(CloseHeld(s, t, next).value)
  {
    assert ThreadOk(s, t);
    if s.threads[t].context.None? {
      ThreadMovesOk(s, t, next);
    } else {
      var r := s.threads[t].context.value;
      assert RequestOk(s, r);
      var q := CloseContext(s.requests[r]).value;
      var s1 := PutRequest(s, r, q);
      RequestMovesOk(s, r, q, s1);
      ThreadMovesOk(s1, t, next);
    }
  }

  lemma ThreadStepOk(s: System, e: Event)
    requires Inv(s) && IsThreadEvent(e)
    ensures !ThreadStep(s, e).Panic? && (ThreadStep(s, e).Next? ==> Inv(ThreadStep(s, e).value))
  {
    if e.t < |s.threads| && ThreadStep(s, e) != Disabled {
      var t, th := e.t, s.threads[e.t];
      assert ThreadOk(s, t);
      if e.FinishEarly? {
        CloseHeldOk(s, t, th);
      } else if e.CallbackReturns? {
        CloseHeldOk(s, t, th.(pc := Finishing, callbacks := th.callbacks - 1));
      } else if e.ScriptEnds? {
        CloseHeldOk(s, t, th.(pc := Ending, callbacks := 0));
      } else {
        ThreadMovesOk(s, t, ThreadStep(s, e).value.threads[t]);
      }
    }
  }

  lemma DeliverOk(s: System, r: nat, t: nat, pc: DispatchPc)
    requires Inv(s) && r < |s.requests| && t < |s.threads| && s.threads[t].pc == Waiting
    requires s.threads[t].pool == s.requests[r].pool
    requires (s.requests[r].pc == Scanning && pc == Awaiting) || (s.requests[r].pc == Queued && pc == Leaving(Delivered))
    ensures Inv(Deliver(s, r, t, pc))
  {
    var s1 := Deliver(s, r, t, pc);
    assert RequestOk(s, r) && ThreadOk(s, t);
    forall p | 0 <= p < |s1.queued|
      ensures s1.queued[p] == Waiters(s1.requests, p)
    {
      WaitersPut(s.requests, r, s1.requests[r], p);
    }
    forall i | 0 <= i < |s1.requests| ensures RequestOk(s1, i) { assert RequestOk(s, i); }
    forall u | 0 <= u < |s1.threads| ensures ThreadOk(s1, u) { assert ThreadOk(s, u); }
  }

  lemma ArriveOk(s: System, pool: nat)
    requires Inv(s) && pool < |s.queued|
    ensures Inv(s.(requests := s.requests + [Request(pool, Fresh, false, 0, [])]))
  {
    var s1 := s.(requests := s.requests + [Request(pool, Fresh, false, 0, [])]);
    assert s1.requests[..|s.requests|] == s.requests;
    forall i | 0 <= i < |s1.requests|
      ensures RequestOk(s1, i)
    {
      if i < |s.requests| { assert RequestOk(s, i); }
    }
    forall u | 0 <= u < |s1.threads| ensures ThreadOk(s1, u) { assert ThreadOk(s, u); }
  }

  lemma QueueStepOk(s: System, e: Event)
    requires Inv(s) && (e.Enqueue? || e.Leave? || e.Decrement?) && DispatcherStep(s, e) != Disabled
    ensures DispatcherStep(s, e).Next? && Inv(DispatcherStep(s, e).value)
  {
    assert RequestOk(s, e.r);
    var s1 := DispatcherStep(s, e).value;
    match e
    case Enqueue(r) => RequestMovesOk(s, r, s1.requests[r], s1);
    case Leave(r, _) => RequestMovesOk(s, r, s1.requests[r], s1);
    case Decrement(r) => RequestMovesOk(s, r, s1.requests[r], s1);
  }

  lemma PlainStepOk(s: System, e: Event)
    requires Inv(s) && (e.Load? || e.GiveUp? || e.Reject? || e.SeeDone?) && DispatcherStep(s, e) != Disabled
    ensures DispatcherStep(s, e).Next? && Inv(DispatcherStep(s, e).value)
  {
    assert RequestOk(s, e.r);
    var s1 := DispatcherStep(s, e).value;
    match e
    case Load(r) => RequestMovesOk(s, r, s1.requests[r], s1);
    case GiveUp(r) => RequestMovesOk(s, r, s1.requests[r], s1);
    case Reject(r) => RequestMovesOk(s, r, s1.requests[r], s1);
    case SeeDone(r) => RequestMovesOk(s, r, s1.requests[r], s1);
  }

  lemma DispatcherStepOk(s: System, e: Event)
    requires Inv(s) && !IsThreadEvent(e)
    ensures !DispatcherStep(s, e).Panic? && (DispatcherStep(s, e).Next? ==> Inv(DispatcherStep(s, e).value))
  {
    if DispatcherStep(s, e) != Disabled {
      match e
      case Arrive(pool) => ArriveOk(s, pool);
      case Offer(r, t) => DeliverOk(s, r, t, Awaiting);
      case Take(r, t) => DeliverOk(s, r, t, Leaving(Delivered));
      case Enqueue(_) | Leave(_, _) | Decrement(_) => QueueStepOk(s, e);
      case _ => PlainStepOk(s, e);
    }
  }

  lemma StepOk(s: System, e: Event)
    requires Inv(s)
    ensures !Step(s, e).Panic? && (Step(s, e).Next? ==> Inv(Step(s, e).value))
  {
    if IsThreadEvent(e) { ThreadStepOk(s, e); } else { DispatcherStepOk(s, e); }
  }

  lemma {:induction false} RunOk(s: System, events: seq<Event>)
    requires Inv(s)
    ensures Run(s, events).Next? && Inv(Run(s, events).value)
    decreases |events|
  {
    if events != [] {
      StepOk(s, events[0]);
      match Step(s, events[0])
      case Disabled => RunOk(s, events[1..]);
      case Next(s1) => RunOk(s1, events[1..]);
    }
  }

  /* ---------- what every run guarantees ---------- */

  predicate Started(s: System) {
    && s.requests == []
    && (forall t | 0 <= t < |s.threads| ::
          s.threads[t].context.None? && s.threads[t].callbacks == 0
          && s.threads[t].pc in (if s.threads[t].worker then {NoScript, Waiting, Running} else {NoScript, Waiting}))
    && (forall p | 0 <= p < |s.queued| :: s.queued[p] == 0)
  }

  /** No done channel is ever closed twice, and no regular script ends without its request: nested calls or
      not, nothing panics. */
  lemma NoDoubleClose(s: System, events: seq<Event>)
    requires Started(s)
    ensures Run(s, events).Next?
  {
    RunOk(s, events);
  }

  /** A request goes to at most one thread, and only a handed-over or rejected one is ever closed. Its
      dispatcher comes back from a delivery only after the done channel was closed, once. */
  lemma EachRequestIsServedOnce(s: System, events: seq<Event>, r: nat)
    requires Started(s) && Run(s, events).Next? && r < |Run(s, events).value.requests|
    ensures var q := Run(s, events).value.requests[r];
            && |q.servedBy| == (if HandedOver(q.pc) then 1 else 0)
            && (q.pc == Returned(Delivered) ==> q.closes == 1)
            && (q.pc == Returned(TimedOut) ==> q.closes == 1)
            && (!HandedOver(q.pc) && q.pc != Returned(TimedOut) ==> q.closes == 0)
  {
    RunOk(s, events);
    assert RequestOk(Run(s, events).value, r);
  }

  /** Two handlers never hold the same request. */
  lemma RequestsAreNotShared(s: System, events: seq<Event>, t: nat, u: nat)
    requires Started(s) && Run(s, events).Next?
    requires var s1 := Run(s, events).value;
             t < |s1.threads| && u < |s1.threads| && s1.threads[t].context == s1.threads[u].context != None
    ensures t == u
  {
    RunOk(s, events);
    var s1 := Run(s, events).value;
    assert ThreadOk(s1, t) && ThreadOk(s1, u);
  }

  /** The queue counter of a pool always equals the number of its dispatchers still waiting, that is
      between their increment and their decrement. */
  lemma QueueCounterIsExact(s: System, events: seq<Event>, pool: nat)
    requires Started(s) && Run(s, events).Next? && pool < |Run(s, events).value.queued|
    ensures Run(s, events).value.queued[pool] == Waiters(Run(s, events).value.requests, pool)
  {
    RunOk(s, events);
  }

  /* ---------- who gets a request ---------- */

  /** Before the event, t waits for requests of r's pool. */
  predicate WaitsFor(s: System, t: nat, r: nat) {
    && t < |s.threads| && r < |s.requests|
    && s.threads[t].pc == Waiting && s.threads[t].pool == s.requests[r].pool
  }

  /** A request is only ever delivered to a thread of its own pool that waits for one, and that thread's
      handler holds it from then on. */
  lemma DeliveredWithinPool(s: System, events: seq<Event>, e: Event, r: nat)
    requires Started(s) && Run(s, events).Next? && Step(Run(s, events).value, e).Next?
    requires var before, after := Run(s, events).value, Step(Run(s, events).value, e).value;
             r < |before.requests| && r < |after.requests| && after.requests[r].servedBy != before.requests[r].servedBy
    ensures var before, after := Run(s, events).value, Step(Run(s, events).value, e).value;
            exists t | WaitsFor(before, t, r) ::
              after.requests[r].servedBy == before.requests[r].servedBy + [t] && Holds(after, t, r)
  {
    var before := Run(s, events).value;
    if IsThreadEvent(e) {
      ThreadsDeliverNothing(before, e, r);
    } else {
      DispatcherDelivers(before, e, r);
    }
  }

  lemma ThreadsDeliverNothing(s: System, e: Event, r: nat)
    requires IsThreadEvent(e) && ThreadStep(s, e).Next? && r < |s.requests| && r < |ThreadStep(s, e).value.requests|
    ensures ThreadStep(s, e).value.requests[r].servedBy == s.requests[r].servedBy
  {
  }

  lemma DispatcherDelivers(s: System, e: Event, r: nat)
    requires !IsThreadEvent(e) && DispatcherStep(s, e).Next? && r < |s.requests| && r < |DispatcherStep(s, e).value.requests|
    requires DispatcherStep(s, e).value.requests[r].servedBy != s.requests[r].servedBy
    ensures exists t | WaitsFor(s, t, r) ::
              DispatcherStep(s, e).value.requests[r].servedBy == s.requests[r].servedBy + [t]
              && Holds(DispatcherStep(s, e).value, t, r)
  {
    assert e.Offer? || e.Take?;
    assert WaitsFor(s, e.t, r);
  }

  /** What a handler holds belongs to its pool, in every run. */
  lemma HeldInOwnPool(s: System, events: seq<Event>, t: nat, r: nat)
    requires Started(s) && Run(s, events).Next? && Holds(Run(s, events).value, t, r)
    ensures var s1 := Run(s, events).value;
            r < |s1.requests| && s1.threads[t].pool == s1.requests[r].pool && s1.requests[r].servedBy == [t]
  {
    RunOk(s, events);
    assert ThreadOk(Run(s, events).value, t);
  }

  /** A request in the queue can be taken by exactly the waiting threads of its pool, and one that is being
      offered around can be given to exactly those. */
  lemma CanBeTakenIff(s: System, r: nat, t: nat)
    requires r < |s.requests|
    ensures s.requests[r].pc == Queued ==> (Step(s, Take(r, t)).Next? <==> WaitsFor(s, t, r))
    ensures s.requests[r].pc == Scanning ==> (Step(s, Offer(r, t)).Next? <==> WaitsFor(s, t, r))
  {
  }

  /** A new request is offered around exactly if nobody of its pool is queued, else it is queued at once. */
  lemma ScansIfQueueIsEmpty(s: System, r: nat)
    requires r < |s.requests| && s.requests[r].pc == Fresh && s.requests[r].pool < |s.queued|
    ensures Step(s, Load(r)).Next?
    ensures Step(s, Load(r)).value.requests[r].pc == if s.queued[s.requests[r].pool] == 0 then Scanning else Queueing
  {
  }

  /** A request that arrives waits for its own pool, untouched, behind those that came before; a thread gets a
      new handler, of the kind and pool asked for and holding nothing, only between two scripts. */
  lemma ArrivesAndConverts(s: System, pool: nat, t: nat, worker: bool)
    ensures Step(s, Arrive(pool)).Next? <==> pool < |s.queued|
    ensures Step(s, Arrive(pool)).Next? ==>
              var s1 := Step(s, Arrive(pool)).value;
              && |s1.requests| == |s.requests| + 1 && s1.requests[..|s.requests|] == s.requests
              && s1.requests[|s.requests|].pool == pool && s1.requests[|s.requests|].pc == Fresh
              && s1.requests[|s.requests|].servedBy == [] && s1.threads == s.threads && s1.queued == s.queued
    ensures Step(s, Convert(t, worker, pool)).Next? <==> t < |s.threads| && s.threads[t].pc == NoScript
    ensures Step(s, Convert(t, worker, pool)).Next? ==>
              var s1 := Step(s, Convert(t, worker, pool)).value;
              && s1.threads[t].worker == worker && s1.threads[t].pool == pool && s1.threads[t].context == None
              && s1.threads[t].pc == NoScript && s1.requests == s.requests
  {
  }

  /** A request that leaves the queue does so for the reason it left the select, whatever that was: it awaits
      the end of its delivery, or is rejected, or returns. */
  lemma LeavesForItsReason(s: System, r: nat, why: Outcome)
    requires r < |s.requests| && s.requests[r].pc == Leaving(why) && s.requests[r].pool < |s.queued|
    ensures var after := Step(s, Decrement(r));
            && after.Next? && r < |after.value.requests|
            && after.value.queued[s.requests[r].pool] == s.queued[s.requests[r].pool] - 1
            && after.value.requests[r].pc == (if why == Delivered then Awaiting else if why == TimedOut then Rejecting else Returned(why))
  {
  }

  /** Ending a request early closes it at once, and its handler goes on holding it. */
  lemma FinishEarlyCloses(s: System, t: nat, r: nat)
    requires Inv(s) && Holds(s, t, r) && s.threads[t].pc == Running
    ensures var after := Step(s, FinishEarly(t));
            after.Next? && r < |after.value.requests| && after.value.requests[r].closes == 1 && after.value.threads == s.threads
  {
    assert ThreadOk(s, t) && RequestOk(s, r);
    assert s.threads[t := s.threads[t]] == s.threads;
  }

  /** Whatever the queue, a new request and a waiting thread of its pool can come together. */
  lemma CanBeServed(s: System, r: nat, t: nat) returns (events: seq<Event>)
    requires Inv(s) && WaitsFor(s, t, r) && s.requests[r].pc == Fresh
    ensures Run(s, events).Next? && Holds(Run(s, events).value, t, r)
    ensures r < |Run(s, events).value.requests| && Run(s, events).value.requests[r].servedBy == [t]
  {
    assert RequestOk(s, r);
    ScansIfQueueIsEmpty(s, r);
    var s1 := Step(s, Load(r)).value;
    StepOk(s, Load(r));
    if s1.requests[r].pc == Scanning {
      events := [Load(r)] + ([Offer(r, t)] + []);
      var s2 := Step(s1, Offer(r, t)).value;
      Then(s1, Offer(r, t), s2, []);
      Then(s, Load(r), s1, [Offer(r, t)] + []);
    } else {
      events := [Load(r)] + ([Enqueue(r)] + ([Take(r, t)] + []));
      var s2 := Step(s1, Enqueue(r)).value;
      var s3 := Step(s2, Take(r, t)).value;
      Then(s2, Take(r, t), s3, []);
      Then(s1, Enqueue(r), s2, [Take(r, t)] + []);
      Then(s, Load(r), s1, [Enqueue(r)] + ([Take(r, t)] + []));
    }
  }

  /* ---------- which delivered requests are never closed ---------- */

  predicate Holds(s: System, t: nat, r: nat) {
    t < |s.threads| && s.threads[t].context == Some(r)
  }

  /** Delivered to t, not closed. */
  predicate OpenAt(s: System, t: nat, r: nat) {
    r < |s.requests| && s.requests[r].servedBy == [t] && s.requests[r].closes == 0
  }

  /** Delivered to t and not closed, but no longer held: nothing can close it any more. */
  predicate Abandoned(s: System, t: nat, r: nat) {
    OpenAt(s, t, r) && !Holds(s, t, r)
  }

  /** The event gives thread t another request while its handler holds r, still open. */
  predicate Overwrites(s: System, e: Event, t: nat, r: nat) {
    && (e.Offer? || e.Take?) && e.t == t && Step(s, e).Next?
    && OpenAt(s, t, r) && Holds(s, t, r)
  }

  ghost predicate OverwrittenIn(s: System, events: seq<Event>, t: nat, r: nat)
    decreases |events|
  {
    events != [] &&
    (Overwrites(s, events[0], t, r) ||
     match Step(s, events[0])
     case Panic => false
     case Disabled => OverwrittenIn(s, events[1..], t, r)
     case Next(s1) => OverwrittenIn(s1, events[1..], t, r))
  }

  lemma ThreadEventAbandons(s: System, e: Event, t: nat, r: nat)
    requires Inv(s) && IsThreadEvent(e) && ThreadStep(s, e).Next?
    ensures Abandoned(ThreadStep(s, e).value, t, r) <==> Abandoned(s, t, r)
  {
    assert ThreadOk(s, e.t);
    var s1 := ThreadStep(s, e).value;
    assert forall u | 0 <= u < |s.threads| && u != e.t :: s1.threads[u] == s.threads[u];
    if r < |s.requests| {
      assert RequestOk(s, r);
      if s.requests[r].servedBy == [t] && t < |s.threads| { assert ThreadOk(s, t); }
    }
  }

  lemma DeliveryAbandons(s: System, e: Event, t: nat, r: nat)
    requires Inv(s) && (e.Offer? || e.Take?) && DispatcherStep(s, e).Next?
    ensures Abandoned(DispatcherStep(s, e).value, t, r) <==> Abandoned(s, t, r) || Overwrites(s, e, t, r)
  {
    var s1 := DispatcherStep(s, e).value;
    assert RequestOk(s, e.r);
    if r < |s.requests| {
      assert RequestOk(s, r);
      assert r != e.r ==> s1.requests[r] == s.requests[r];
      assert r == e.r ==> s1.requests[r].servedBy == [e.t] && Holds(s1, e.t, r);
      if t == e.t { assert s1.threads[t].context == Some(e.r); } else if t < |s.threads| { assert s1.threads[t] == s.threads[t]; }
    }
  }

  lemma DispatcherEventAbandons(s: System, e: Event, t: nat, r: nat)
    requires Inv(s) && !IsThreadEvent(e) && DispatcherStep(s, e).Next?
    ensures Abandoned(DispatcherStep(s, e).value, t, r) <==> Abandoned(s, t, r) || Overwrites(s, e, t, r)
  {
    if e.Offer? || e.Take? {
      DeliveryAbandons(s, e, t, r);
    } else {
      var s1 := DispatcherStep(s, e).value;
      assert s1.threads == s.threads;
      if r < |s.requests| {
        assert RequestOk(s, r);
        assert s1.requests[r].servedBy == s.requests[r].servedBy;
      }
    }
  }

  lemma {:induction false} AbandonedFrom(s: System, events: seq<Event>, t: nat, r: nat)
    requires Inv(s)
    ensures Run(s, events).Next?
    ensures Abandoned(Run(s, events).value, t, r) <==> Abandoned(s, t, r) || OverwrittenIn(s, events, t, r)
    decreases |events|
  {
    if events != [] {
      var e := events[0];
      StepOk(s, e);
      match Step(s, e)
      case Disabled => AbandonedFrom(s, events[1..], t, r);
      case Next(s1) =>
        if IsThreadEvent(e) { ThreadEventAbandons(s, e, t, r); } else { DispatcherEventAbandons(s, e, t, r); }
        AbandonedFrom(s1, events[1..], t, r);
    }
  }

  /** A delivered request that is not closed is still held by its thread, if and only if no later receive
      of that thread overwrote it while it was open. */
  lemma AbandonedIffOverwritten(s: System, events: seq<Event>, t: nat, r: nat)
    requires Started(s)
    ensures Run(s, events).Next?
    ensures Abandoned(Run(s, events).value, t, r) <==> OverwrittenIn(s, events, t, r)
  {
    AbandonedFrom(s, events, t, r);
  }

  /** Once overwritten, it is never closed, and its dispatcher never comes back. */
  lemma AbandonedForever(s: System, t: nat, r: nat, events: seq<Event>)
    requires Inv(s) && Abandoned(s, t, r)
    ensures Run(s, events).Next? && r < |Run(s, events).value.requests|
    ensures Run(s, events).value.requests[r].closes == 0
    ensures !Run(s, events).value.requests[r].pc.Returned?
  {
    AbandonedFrom(s, events, t, r);
    RunOk(s, events);
    assert RequestOk(Run(s, events).value, r);
  }

  /** Whenever a thread is between two scripts, every request ever delivered to it has been closed exactly
      once, unless a later receive overwrote it while it was open; nested calls included. */
  lemma ClosedWhenScriptEndedIff(s: System, events: seq<Event>, t: nat, r: nat)
    requires Started(s) && Run(s, events).Next?
    requires var s1 := Run(s, events).value;
             t < |s1.threads| && r < |s1.requests| && t in s1.requests[r].servedBy && s1.threads[t].pc == NoScript
    ensures Run(s, events).value.requests[r].closes == if OverwrittenIn(s, events, t, r) then 0 else 1
  {
    AbandonedFrom(s, events, t, r);
    RunOk(s, events);
    var s1 := Run(s, events).value;
    assert ThreadOk(s1, t) && RequestOk(s1, r);
  }

  /* ---------- scripts that never nest ---------- */

  /** The worker script calls frankenphp_handle_request inside a callback of frankenphp_handle_request. */
  predicate Nests(s: System, e: Event) {
    e.HandleRequest? && e.t < |s.threads| && s.threads[e.t].callbacks > 0
  }

  ghost predicate NeverNested(s: System, events: seq<Event>)
    decreases |events|
  {
    events == [] ||
    (!Nests(s, events[0]) &&
     match Step(s, events[0])
     case Panic => true
     case Disabled => NeverNested(s, events[1..])
     case Next(s1) => NeverNested(s1, events[1..]))
  }

  /** Without nesting, a handler that waits, or that runs no callback, holds no request. */
  predicate FlatThread(th: Thread) {
    && (th.pc == Waiting ==> th.context.None? && th.callbacks == 0)
    && (th.worker && th.pc == Running && th.callbacks == 0 ==> th.context.None?)
    && th.callbacks <= 1 && (th.pc == Finishing ==> th.callbacks == 0)
  }

  ghost predicate Flat(s: System) {
    forall t | 0 <= t < |s.threads| :: FlatThread(s.threads[t])
  }

  lemma StepFlat(s: System, e: Event)
    requires Inv(s) && Flat(s) && !Nests(s, e) && Step(s, e).Next?
    ensures Flat(Step(s, e).value)
    ensures forall t, r :: !Overwrites(s, e, t, r)
  {
    if IsThreadEvent(e) {
      assert FlatThread(s.threads[e.t]) && ThreadOk(s, e.t);
    } else if e.Offer? || e.Take? {
      assert FlatThread(s.threads[e.t]) && ThreadOk(s, e.t);
    }
  }

  lemma {:induction false} RunFlat(s: System, events: seq<Event>, t: nat, r: nat)
    requires Inv(s) && Flat(s) && NeverNested(s, events)
    ensures Run(s, events).Next? && Flat(Run(s, events).value)
    ensures !OverwrittenIn(s, events, t, r)
    decreases |events|
  {
    if events != [] {
      StepOk(s, events[0]);
      match Step(s, events[0])
      case Disabled => RunFlat(s, events[1..], t, r);
      case Next(s1) =>
        StepFlat(s, events[0]);
        RunFlat(s1, events[1..], t, r);
    }
  }

  /** If no call nests, then whenever a thread waits for a request or its script has ended, every request
      ever delivered to it has had its done channel closed, exactly once. */
  lemma ClosedBeforeWaitingAgain(s: System, events: seq<Event>, t: nat, r: nat)
    requires Started(s) && NeverNested(s, events) && Run(s, events).Next?
    requires var s1 := Run(s, events).value;
             && t < |s1.threads| && r < |s1.requests| && t in s1.requests[r].servedBy
             && s1.threads[t].pc in {Waiting, NoScript}
    ensures Run(s, events).value.requests[r].closes == 1
  {
    RunFlat(s, events, t, r);
    AbandonedFrom(s, events, t, r);
    RunOk(s, events);
    var s1 := Run(s, events).value;
    assert FlatThread(s1.threads[t]) && ThreadOk(s1, t) && RequestOk(s1, r);
  }

  /* ---------- a nested call that abandons a request ---------- */

  /** One worker thread whose script runs outside any callback. */
  function OneWorker(requests: seq<Request>): System {
    System(requests, [WorkerThread(Running, None, 0)], [0])
  }

  function WorkerThread(pc: ThreadPc, context: Option<nat>, callbacks: nat): Thread {
    Thread(true, 0, pc, context, callbacks)
  }

  function Given(): Request {
    Request(0, Awaiting, false, 0, [0])
  }

  /** A request arrives and is taken by the waiting thread. */
  function Served(r: nat): seq<Event> {
    [Arrive(0)] + ([Load(r)] + ([Offer(r, 0)] + []))
  }

  lemma Then(s: System, e: Event, t: System, rest: seq<Event>)
    requires Step(s, e) == Next(t)
    ensures Run(s, [e] + rest) == Run(t, rest)
  {
    assert ([e] + rest)[1..] == rest;
  }

  lemma {:induction false} RunConcat(s: System, first: seq<Event>, rest: seq<Event>)
    requires Run(s, first).Next?
    ensures Run(s, first + rest) == Run(Run(s, first).value, rest)
    decreases |first|
  {
    if first == [] {
      assert first + rest == rest;
    } else {
      assert (first + rest)[1..] == first[1..] + rest;
      match Step(s, first[0])
      case Disabled => RunConcat(s, first[1..], rest);
      case Next(s1) => RunConcat(s1, first[1..], rest);
    }
  }

  lemma ServedLeg(before: seq<Request>, context: Option<nat>, callbacks: nat)
    ensures Run(System(before, [WorkerThread(Waiting, context, callbacks)], [0]), Served(|before|))
         == Next(System(before + [Given()], [WorkerThread(Running, Some(|before|), callbacks + 1)], [0]))
  {
    var r := |before|;
    var fresh0 := Request(0, Fresh, false, 0, []);
    var s0 := System(before, [WorkerThread(Waiting, context, callbacks)], [0]);
    var s1 := s0.(requests := before + [fresh0]);
    var s2 := s0.(requests := before + [fresh0.(pc := Scanning)]);
    var s3 := System(before + [Given()], [WorkerThread(Running, Some(r), callbacks + 1)], [0]);
    assert s1.requests[r := fresh0.(pc := Scanning)] == s2.requests;
    assert s2.requests[r := Given()] == s3.requests;
    assert s2.threads[0 := s3.threads[0]] == s3.threads;
    assert [] + [0] == [0];
    Then(s2, Offer(r, 0), s3, []);
    Then(s1, Load(r), s2, [Offer(r, 0)] + []);
    Then(s0, Arrive(0), s1, [Load(r)] + ([Offer(r, 0)] + []));
  }

  lemma HandleLeg(requests: seq<Request>, context: Option<nat>, callbacks: nat)
    ensures Run(System(requests, [WorkerThread(Running, context, callbacks)], [0]), [HandleRequest(0)])
         == Next(System(requests, [WorkerThread(Waiting, context, callbacks)], [0]))
  {
    var s0 := System(requests, [WorkerThread(Running, context, callbacks)], [0]);
    var s1 := s0.(threads := [WorkerThread(Waiting, context, callbacks)]);
    assert s0.threads[0 := s1.threads[0]] == s1.threads;
    assert [HandleRequest(0)][1..] == [];
  }

  /** The script asks for a request and is given the one that arrives, whatever its handler held. */
  function AskAndServe(r: nat): seq<Event> {
    [HandleRequest(0)] + Served(r)
  }

  lemma AskAndServeLeg(before: seq<Request>, context: Option<nat>, callbacks: nat)
    ensures Run(System(before, [WorkerThread(Running, context, callbacks)], [0]), AskAndServe(|before|))
         == Next(System(before + [Given()], [WorkerThread(Running, Some(|before|), callbacks + 1)], [0]))
  {
    HandleLeg(before, context, callbacks);
    RunConcat(System(before, [WorkerThread(Running, context, callbacks)], [0]), [HandleRequest(0)], Served(|before|));
    ServedLeg(before, context, callbacks);
  }

  /** A callback that calls frankenphp_handle_request itself and gets a second request: the first one is
      abandoned, so by AbandonedForever nobody ever closes it. */
  lemma NestedCallAbandons(before: seq<Request>)
    ensures before == [] ==> Started(OneWorker(before))
    ensures var r := |before|;
            var end := Run(OneWorker(before), AskAndServe(r) + AskAndServe(r + 1));
            end.Next? && Abandoned(end.value, 0, r)
  {
    var r := |before|;
    AskAndServeLeg(before, None, 0);
    RunConcat(OneWorker(before), AskAndServe(r), AskAndServe(r + 1));
    AskAndServeLeg(before + [Given()], Some(r), 1);
  }

  /* ---------- what can still happen ---------- */

  /** Closing a done channel panics exactly if it was closed without being marked as done. */
  lemma ClosePanicsIff(s: System, t: nat, next: Thread, r: nat)
    requires Holds(s, t, r) && r < |s.requests|
    ensures CloseHeld(s, t, next).Panic? <==> !s.requests[r].isDone && s.requests[r].closes > 0
    ensures s.requests[r].pc == Rejecting ==>
              (Step(s, Reject(r)).Panic? <==> !s.requests[r].isDone && s.requests[r].closes > 0)
  {
  }

  function ThreadSteps(pc: ThreadPc): nat {
    match pc
    case NoScript => 0
    case Ending => 1
    case Running => 2
    case Finishing | Waiting => 3
  }

  /** Thread t moves: the dispatchers stay where they are, what it holds it goes on holding or has closed. */
  ghost predicate ThreadMoved(s: System, s1: System, t: nat) {
    && t < |s.threads| && |s1.threads| == |s.threads| && |s1.requests| == |s.requests|
    && s1.threads[t].worker == s.threads[t].worker && s1.threads[t].pool == s.threads[t].pool
    && (forall r | 0 <= r < |s.requests| ::
          s1.requests[r].pc == s.requests[r].pc && s1.requests[r].servedBy == s.requests[r].servedBy
          && s1.requests[r].closes >= s.requests[r].closes)
    && (forall r | 0 <= r < |s.requests| && Holds(s, t, r) :: Holds(s1, t, r) || s1.requests[r].closes == 1)
  }

  lemma ThreadMoves(s: System, t: nat) returns (e: Event, s1: System)
    requires Inv(s) && t < |s.threads| && s.threads[t].pc != NoScript
    ensures Step(s, e) == Next(s1) && Inv(s1) && ThreadMoved(s, s1, t)
    ensures ThreadSteps(s1.threads[t].pc) < ThreadSteps(s.threads[t].pc)
  {
    assert ThreadOk(s, t);
    var pc := s.threads[t].pc;
    e := if pc == Waiting then Drain(t) else if pc == Running then ScriptEnds(t) else Clear(t);
    StepOk(s, e);
    s1 := Step(s, e).value;
    if s.threads[t].context.Some? {
      assert RequestOk(s, s.threads[t].context.value);
    }
  }

  lemma MovedTwice(s: System, s1: System, s2: System, t: nat)
    requires ThreadMoved(s, s1, t) && ThreadMoved(s1, s2, t) && Inv(s2)
    ensures ThreadMoved(s, s2, t)
  {
    forall r | 0 <= r < |s.requests| && Holds(s, t, r)
      ensures Holds(s2, t, r) || s2.requests[r].closes == 1
    {
      assert RequestOk(s2, r);
    }
  }

  /** A script can always be brought to its end, and then everything its thread held has been closed. */
  lemma {:induction false} ThreadCanFinish(s: System, t: nat) returns (events: seq<Event>, s1: System)
    requires Inv(s) && t < |s.threads|
    ensures Run(s, events) == Next(s1) && Inv(s1) && ThreadMoved(s, s1, t) && s1.threads[t].pc == NoScript
    decreases ThreadSteps(s.threads[t].pc)
  {
    if s.threads[t].pc == NoScript {
      events, s1 := [], s;
    } else {
      var e, s2 := ThreadMoves(s, t);
      var rest: seq<Event>;
      rest, s1 := ThreadCanFinish(s2, t);
      MovedTwice(s, s2, s1, t);
      Then(s, e, s2, rest);
      events := [e] + rest;
    }
  }

  /** Whatever it is doing, a thread can come to wait for a request again. */
  lemma ThreadCanWaitAgain(s: System, t: nat) returns (events: seq<Event>)
    requires Inv(s) && t < |s.threads|
    ensures Run(s, events).Next? && t < |Run(s, events).value.threads|
    ensures Run(s, events).value.threads[t].pc == Waiting && Run(s, events).value.threads[t].pool == s.threads[t].pool
  {
    var first, s1 := ThreadCanFinish(s, t);
    if s.threads[t].worker {
      var s2 := Step(s1, StartScript(t)).value;
      var s3 := Step(s2, HandleRequest(t)).value;
      Then(s2, HandleRequest(t), s3, []);
      Then(s1, StartScript(t), s2, [HandleRequest(t)] + []);
      RunConcat(s, first, [StartScript(t)] + ([HandleRequest(t)] + []));
      events := first + ([StartScript(t)] + ([HandleRequest(t)] + []));
    } else {
      var s2 := Step(s1, Wait(t)).value;
      Then(s1, Wait(t), s2, []);
      RunConcat(s, first, [Wait(t)] + []);
      events := first + ([Wait(t)] + []);
    }
  }

  function DispatchSteps(pc: DispatchPc): nat {
    match pc
    case Fresh => 6
    case Scanning => 5
    case Queueing => 4
    case Queued => 3
    case Leaving(_) => 2
    case Rejecting | Awaiting => 1
    case Returned(_) => 0
  }

  ghost predicate NotAbandoned(s: System, r: nat) {
    forall t: nat :: !Abandoned(s, t, r)
  }

  /** The dispatcher's own next step, while it need not wait for the thread that serves it. */
  lemma DispatcherMoves(s: System, r: nat) returns (e: Event, s1: System)
    requires Inv(s) && r < |s.requests| && !s.requests[r].pc.Returned? && NotAbandoned(s, r)
    requires s.requests[r].pc == Awaiting ==> s.requests[r].closes == 1
    ensures Step(s, e) == Next(s1) && Inv(s1) && r < |s1.requests| && NotAbandoned(s1, r)
    ensures DispatchSteps(s1.requests[r].pc) < DispatchSteps(s.requests[r].pc)
  {
    assert RequestOk(s, r);
    match s.requests[r].pc {
      case Fresh => e := Load(r);
      case Scanning => e := GiveUp(r);
      case Queueing => e := Enqueue(r);
      case Queued => e := Leave(r, Cancelled);
      case Leaving(_) => e := Decrement(r);
      case Rejecting => e := Reject(r);
      case Awaiting => e := SeeDone(r);
    }
    StepOk(s, e);
    s1 := Step(s, e).value;
    forall t: nat
      ensures !Abandoned(s1, t, r)
    {
      DispatcherEventAbandons(s, e, t, r);
    }
  }

  lemma {:induction false} DispatcherCanReturn(s: System, r: nat) returns (events: seq<Event>)
    requires Inv(s) && r < |s.requests| && NotAbandoned(s, r)
    ensures Run(s, events).Next? && r < |Run(s, events).value.requests| && Run(s, events).value.requests[r].pc.Returned?
    decreases DispatchSteps(s.requests[r].pc)
  {
    assert RequestOk(s, r);
    if s.requests[r].pc.Returned? {
      events := [];
    } else {
      var first, s1 := [], s;
      if s.requests[r].pc == Awaiting && s.requests[r].closes == 0 {
        var t := s.requests[r].servedBy[0];
        assert s.requests[r].servedBy == [t] && !Abandoned(s, t, r);
        first, s1 := ThreadCanFinish(s, t);
        assert ThreadOk(s1, t) && RequestOk(s1, r);
      }
      var e, s2 := DispatcherMoves(s1, r);
      var rest := DispatcherCanReturn(s2, r);
      Then(s1, e, s2, rest);
      RunConcat(s, first, [e] + rest);
      events := first + ([e] + rest);
    }
  }

  ghost predicate CanReturn(s: System, r: nat) {
    exists events :: Run(s, events).Next? && r < |Run(s, events).value.requests| && Run(s, events).value.requests[r].pc.Returned?
  }

  /** In this run a receive of thread t overwrote request r while it was open. */
  ghost predicate LostAt(start: System, events: seq<Event>, t: nat, r: nat) {
    OverwrittenIn(start, events, t, r)
  }

  /** In every state a run can reach, the dispatcher of a request can come back if and only if the request
      was not overwritten in its handler while it was open. */
  lemma DispatcherCanReturnIff(start: System, events: seq<Event>, r: nat)
    requires Started(start) && Run(start, events).Next? && r < |Run(start, events).value.requests|
    ensures CanReturn(Run(start, events).value, r) <==> forall t: nat :: !LostAt(start, events, t, r)
  {
    RunOk(start, events);
    var s := Run(start, events).value;
    forall t: nat
      ensures Abandoned(s, t, r) <==> LostAt(start, events, t, r)
    {
      AbandonedFrom(start, events, t, r);
    }
    if NotAbandoned(s, r) {
      var rest := DispatcherCanReturn(s, r);
    } else {
      var t: nat :| Abandoned(s, t, r);
      assert LostAt(start, events, t, r);
      if CanReturn(s, r) {
        var rest :| Run(s, rest).Next? && r < |Run(s, rest).value.requests| && Run(s, rest).value.requests[r].pc.Returned?;
        AbandonedForever(s, t, r, rest);
        assert false;
      }
    }
  }
}

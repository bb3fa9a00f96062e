/**
  ThreadState (internal/state/state.go): a state, and subscribers that wait for some states.
  The class keeps the source's in-place subscriber buffer; the value model below it is what the
  guarantees over whole interleavings are stated on.
 */
module ThreadStates {
  import opened States

  datatype Subscriber = Subscriber(states: seq<State>, ch: nat)

  /** `closed` is the log of closed channels, in order; `next` is the next channel to be made. */
  datatype Model = Model(current: State, subs: seq<Subscriber>, closed: seq<nat>, next: nat)

  datatype Op =
    | Set(to: State)
    | CompareAndSwap(from: State, to: State)
    | Wait(states: seq<State>)          // registration of WaitFor and WaitForStateWithTimeout
    | Timeout(ch: nat)                  // the waiter of ch gives up
    | RequestChange(to: State)          // one attempt of RequestSafeStateChange

  /** The subscribers that keep waiting, and the channels of those that are notified. */
  function Unmatched(subs: seq<Subscriber>, st: State): seq<Subscriber> {
    if subs == [] then [] else
    var s := subs[|subs| - 1];
    Unmatched(subs[..|subs| - 1], st) + (if st in s.states then [] else [s])
  }

  function MatchedChannels(subs: seq<Subscriber>, st: State): seq<nat> {
    if subs == [] then [] else
    var s := subs[|subs| - 1];
    MatchedChannels(subs[..|subs| - 1], st) + (if st in s.states then [s.ch] else [])
  }

  lemma NotifyNext(subs: seq<Subscriber>, i: nat, st: State)
    requires i < |subs|
    ensures Unmatched(subs[..i + 1], st) == Unmatched(subs[..i], st) + (if st in subs[i].states then [] else [subs[i]])
    ensures MatchedChannels(subs[..i + 1], st)
         == MatchedChannels(subs[..i], st) + (if st in subs[i].states then [subs[i].ch] else [])
  {
    assert subs[..i + 1][..i] == subs[..i];
  }

  function WithoutChannel(subs: seq<Subscriber>, ch: nat): seq<Subscriber> {
    if subs == [] then [] else
    var s := subs[|subs| - 1];
    WithoutChannel(subs[..|subs| - 1], ch) + (if s.ch == ch then [] else [s])
  }

  function Enter(m: Model, st: State): Model {
    m.(current := st, subs := Unmatched(m.subs, st), closed := m.closed + MatchedChannels(m.subs, st))
  }

  function Apply(m: Model, op: Op): Model {
    match op
    case Set(to) => Enter(m, to)
    case CompareAndSwap(from, to) => if m.current == from then Enter(m, to) else m
    case Wait(states) =>
      if m.current in states then m
      else m.(subs := m.subs + [Subscriber(states, m.next)], next := m.next + 1)
    case Timeout(ch) => m.(subs := WithoutChannel(m.subs, ch))
    case RequestChange(to) => if SafeChangeIn(m.current) == Granted then Enter(m, to) else m
  }

  function ApplyAll(m: Model, ops: seq<Op>): Model
    decreases |ops|
  {
    if ops == [] then m else ApplyAll(Apply(m, ops[0]), ops[1..])
  }

  /* ---------- the object ---------- */

  /** The compaction loop of notifySubscribers: keeps the unmatched subscribers, in order, in the same
      buffer, and closes the channels of the others. */
  method Compact(buf: array<Subscriber>, n: nat, st: State) returns (kept: nat, notified: seq<nat>)
    requires n <= buf.Length
    modifies buf
    ensures kept <= n && buf[..kept] == Unmatched(old(buf[..n]), st)
    ensures notified == MatchedChannels(old(buf[..n]), st)
  {
    ghost var subs, left := buf[..n], [];
    kept, notified := 0, [];
    for i := 0 to n
      invariant kept == |left| <= i
      invariant left == Unmatched(subs[..i], st) && notified == MatchedChannels(subs[..i], st)
      invariant forall k | 0 <= k < kept :: buf[k] == left[k]
      invariant forall k | i <= k < n :: buf[k] == subs[k]
    {
      NotifyNext(subs, i, st);
      var sub := buf[i];
      if st !in sub.states {
        buf[kept] := sub;
        kept := kept + 1;
        left := left + [sub];
      } else {
        notified := notified + [sub.ch];
      }
    }
    assert subs[..n] == subs;
    assert buf[..kept] == left;
  }

  class ThreadState {
    var currentState: State
    var buffer: array<Subscriber>
    var count: nat
    var closed: seq<nat>
    var nextChannel: nat

    ghost predicate Valid()
      reads this
    {
      count <= buffer.Length
    }

    ghost function Value(): Model
      reads this, buffer
      requires Valid()
    {
      Model(currentState, buffer[..count], closed, nextChannel)
    }

    constructor ()
      ensures Valid() && fresh(buffer)
      ensures Value() == Model(Reserved, [], [], 0)
    {
      currentState, count, closed, nextChannel := Reserved, 0, [], 0;
      buffer := new Subscriber[0];
    }

    /** Compacts the subscribers and closes the channels of those that waited for the new state. */
    method NotifySubscribers(nextState: State)
      requires Valid()
      modifies this`count, this`closed, buffer
      ensures Valid() && buffer == old(buffer)
      ensures Value() == old(Value()).(
        subs := Unmatched(old(Value().subs), nextState),
        closed := old(closed) + MatchedChannels(old(Value().subs), nextState))
    {
      var kept, notified := Compact(buffer, count, nextState);
      count, closed := kept, closed + notified;
    }

    method Set(nextState: State)
      requires Valid()
      modifies this`currentState, this`count, this`closed, buffer
      ensures Valid() && buffer == old(buffer)
      ensures currentState == nextState
      ensures Value() == Apply(old(Value()), Op.Set(nextState))
    {
      currentState := nextState;
      NotifySubscribers(nextState);
    }

    method CompareAndSwap(compareTo: State, swapTo: State) returns (ok: bool)
      requires Valid()
      modifies this`currentState, this`count, this`closed, buffer
      ensures Valid() && buffer == old(buffer)
      ensures ok == (old(currentState) == compareTo)
      ensures currentState == if ok then swapTo else old(currentState)
      ensures Value() == Apply(old(Value()), Op.CompareAndSwap(compareTo, swapTo))
    {
      ok := currentState == compareTo;
      if ok {
        currentState := swapTo;
        NotifySubscribers(swapTo);
      }
    }

    /** The locked part of WaitFor; `blocked` tells whether the caller must wait for channel ch. */
    method Register(states: seq<State>) returns (blocked: bool, ch: nat)
      requires Valid()
      modifies this`count, this`buffer, this`nextChannel, buffer
      ensures Valid() && (buffer == old(buffer) || fresh(buffer))
      ensures blocked == (old(currentState) !in states) && ch == old(nextChannel)
      ensures Value().subs == old(Value()).subs + (if blocked then [Subscriber(states, ch)] else [])
      ensures currentState == old(currentState) && closed == old(closed)
      ensures Value() == Apply(old(Value()), Wait(states))
    {
      ch := nextChannel;
      blocked := currentState !in states;
      if !blocked {
        return;
      }
      if count == buffer.Length {
        var grown := new Subscriber[2 * count + 1];
        forall k | 0 <= k < count {
          grown[k] := buffer[k];
        }
        assert grown[..count] == buffer[..count];
        buffer := grown;
      }
      buffer[count] := Subscriber(states, ch);
      assert buffer[..count + 1] == old(buffer[..count]) + [Subscriber(states, ch)];
      count, nextChannel := count + 1, ch + 1;
    }

    /** The locked part of a timeout: slices.DeleteFunc, again in place. */
    method GiveUp(ch: nat)
      requires Valid()
      modifies this`count, buffer
      ensures Valid() && buffer == old(buffer)
      ensures Value() == Apply(old(Value()), Timeout(ch))
    {
      ghost var subs, left := buffer[..count], [];
      var n, kept, buf := count, 0, buffer;
      for i := 0 to n
        invariant kept == |left| <= i && buf == buffer && n == count
        invariant left == WithoutChannel(subs[..i], ch)
        invariant forall k | 0 <= k < kept :: buf[k] == left[k]
        invariant forall k | i <= k < n :: buf[k] == subs[k]
      {
        assert subs[..i + 1][..i] == subs[..i];
        var sub := buf[i];
        if sub.ch != ch {
          buf[kept] := sub;
          kept := kept + 1;
          left := left + [sub];
        }
      }
      assert subs[..n] == subs;
      count := kept;
      assert buffer[..count] == left;
    }

    /** One attempt of RequestSafeStateChange. */
    method TryRequestChange(nextState: State) returns (outcome: SafeChange)
      requires Valid()
      modifies this`currentState, this`count, this`closed, buffer
      ensures Valid() && buffer == old(buffer)
      ensures outcome == SafeChangeIn(old(currentState))
      ensures currentState == if outcome == Granted then nextState else old(currentState)
      ensures Value() == Apply(old(Value()), RequestChange(nextState))
    {
      outcome := SafeChangeIn(currentState);
      if outcome == Granted {
        currentState := nextState;
        NotifySubscribers(nextState);
      }
    }
  }

  /* ---------- guarantees over every interleaving ---------- */

  ghost predicate Registered(m: Model, ch: nat) {
    exists s | s in m.subs :: s.ch == ch
  }

  /** No subscriber waits for the current state; channels are distinct; none registered is closed;
      none was closed twice. */
  ghost predicate Sound(m: Model) {
    && (forall k | 0 <= k < |m.subs| :: m.current !in m.subs[k].states)
    && (forall k | 0 <= k < |m.subs| :: m.subs[k].ch < m.next && m.subs[k].ch !in m.closed)
    && (forall j, k | 0 <= j < k < |m.subs| :: m.subs[j].ch != m.subs[k].ch)
    && (forall j, k | 0 <= j < k < |m.closed| :: m.closed[j] != m.closed[k])
    && (forall k | 0 <= k < |m.closed| :: m.closed[k] < m.next)
  }

  /** `to` is a subsequence of `from` at increasing indices `at`. */
  ghost predicate Picks<T(!new)>(from: seq<T>, at: seq<nat>, to: seq<T>) {
    && |at| == |to|
    && (forall k | 0 <= k < |to| :: at[k] < |from| && from[at[k]] == to[k])
    && (forall j, k | 0 <= j < k < |at| :: at[j] < at[k])
  }

  lemma {:induction false} UnmatchedIsFilter(subs: seq<Subscriber>, st: State) returns (at: seq<nat>)
    ensures Picks(subs, at, Unmatched(subs, st))
    ensures forall s :: s in Unmatched(subs, st) <==> s in subs && st !in s.states
  {
    if subs == [] {
      at := [];
    } else {
      var n := |subs| - 1;
      at := UnmatchedIsFilter(subs[..n], st);
      assert subs == subs[..n] + [subs[n]];
      if st !in subs[n].states {
        at := at + [n];
      }
    }
  }

  lemma {:induction false} WithoutChannelIsFilter(subs: seq<Subscriber>, ch: nat) returns (at: seq<nat>)
    ensures Picks(subs, at, WithoutChannel(subs, ch))
    ensures forall s :: s in WithoutChannel(subs, ch) <==> s in subs && s.ch != ch
  {
    if subs == [] {
      at := [];
    } else {
      var n := |subs| - 1;
      at := WithoutChannelIsFilter(subs[..n], ch);
      assert subs == subs[..n] + [subs[n]];
      if subs[n].ch != ch {
        at := at + [n];
      }
    }
  }

  ghost predicate WaitsOn(subs: seq<Subscriber>, ch: nat, st: State) {
    exists s | s in subs :: s.ch == ch && st in s.states
  }

  lemma WaitsOnLast(subs: seq<Subscriber>, ch: nat, st: State)
    requires subs != []
    ensures var n := |subs| - 1;
            WaitsOn(subs, ch, st) <==> WaitsOn(subs[..n], ch, st) || (subs[n].ch == ch && st in subs[n].states)
  {
    var n := |subs| - 1;
    assert subs == subs[..n] + [subs[n]];
    if WaitsOn(subs[..n], ch, st) {
      var s :| s in subs[..n] && s.ch == ch && st in s.states;
      assert s in subs;
    }
  }

  /** The closed channels are those of the matching subscribers, each once, in order. */
  lemma {:induction false} MatchedAreClosedOnce(subs: seq<Subscriber>, st: State)
    requires forall j, k | 0 <= j < k < |subs| :: subs[j].ch != subs[k].ch
    ensures var c := MatchedChannels(subs, st);
            && (forall j, k | 0 <= j < k < |c| :: c[j] != c[k])
            && (forall ch :: ch in c <==> WaitsOn(subs, ch, st))
  {
    if subs != [] {
      var n := |subs| - 1;
      var rest := subs[..n];
      MatchedAreClosedOnce(rest, st);
      forall ch
        ensures WaitsOn(subs, ch, st) <==> WaitsOn(rest, ch, st) || (subs[n].ch == ch && st in subs[n].states)
      {
        WaitsOnLast(subs, ch, st);
      }
      assert subs[n].ch !in MatchedChannels(rest, st);
    }
  }

  /** What stays registered: unmatched, with its channel open. */
  lemma KeptSound(m: Model, st: State, k: nat)
    requires Sound(m) && k < |Unmatched(m.subs, st)|
    ensures var s := Unmatched(m.subs, st)[k];
            st !in s.states && s.ch < m.next && s.ch !in m.closed && s.ch !in MatchedChannels(m.subs, st)
  {
    var at := UnmatchedIsFilter(m.subs, st);
    MatchedAreClosedOnce(m.subs, st);
    var s := Unmatched(m.subs, st)[k];
    assert s in m.subs;
    forall other | other in m.subs && other.ch == s.ch
      ensures st !in other.states
    {
      assert other == s;
    }
  }

  lemma MatchedSound(m: Model, st: State, k: nat)
    requires Sound(m) && k < |MatchedChannels(m.subs, st)|
    ensures MatchedChannels(m.subs, st)[k] < m.next && MatchedChannels(m.subs, st)[k] !in m.closed
  {
    MatchedAreClosedOnce(m.subs, st);
    assert WaitsOn(m.subs, MatchedChannels(m.subs, st)[k], st);
  }

  lemma StayDistinct(a: seq<nat>, b: seq<nat>)
    requires forall j, k | 0 <= j < k < |a| :: a[j] != a[k]
    requires forall j, k | 0 <= j < k < |b| :: b[j] != b[k]
    requires forall k | 0 <= k < |b| :: b[k] !in a
    ensures forall j, k | 0 <= j < k < |a + b| :: (a + b)[j] != (a + b)[k]
  {
    var s := a + b;
    forall j, k | 0 <= j < k < |s|
      ensures s[j] != s[k]
    {
      if k < |a| {
        assert s[j] == a[j] && s[k] == a[k];
      } else if j < |a| {
        assert s[j] in a && s[k] == b[k - |a|];
      } else {
        assert s[j] == b[j - |a|] && s[k] == b[k - |a|];
      }
    }
  }

  lemma EnterSound(m: Model, st: State)
    requires Sound(m)
    ensures Sound(Enter(m, st))
  {
    var kept, c := Unmatched(m.subs, st), MatchedChannels(m.subs, st);
    forall k | 0 <= k < |kept|
      ensures st !in kept[k].states && kept[k].ch < m.next && kept[k].ch !in m.closed + c
    {
      KeptSound(m, st, k);
    }
    forall k | 0 <= k < |c|
      ensures c[k] < m.next && c[k] !in m.closed
    {
      MatchedSound(m, st, k);
    }
    forall j, k | 0 <= j < k < |kept|
      ensures kept[j].ch != kept[k].ch
    {
      var at := UnmatchedIsFilter(m.subs, st);
      assert at[j] < at[k];
    }
    MatchedAreClosedOnce(m.subs, st);
    StayDistinct(m.closed, c);
  }

  lemma ApplySound(m: Model, op: Op)
    requires Sound(m)
    ensures Sound(Apply(m, op))
  {
    match op
    case Set(to) => EnterSound(m, to);
    case CompareAndSwap(from, to) => EnterSound(m, to);
    case Wait(states) =>
    case Timeout(ch) => var at := WithoutChannelIsFilter(m.subs, ch);
    case RequestChange(to) => EnterSound(m, to);
  }

  /** In every interleaving: no registered subscriber waits for the current state, and no channel is
      closed twice. */
  lemma {:induction false} AlwaysSound(m: Model, ops: seq<Op>)
    requires Sound(m)
    ensures Sound(ApplyAll(m, ops))
    decreases |ops|
  {
    if ops != [] {
      ApplySound(m, ops[0]);
      AlwaysSound(Apply(m, ops[0]), ops[1..]);
    }
  }

  /** Some operation of the run brings the state into `states`. */
  ghost predicate Visits(m: Model, ops: seq<Op>, states: seq<State>)
    decreases |ops|
  {
    ops != [] && (Apply(m, ops[0]).current in states || Visits(Apply(m, ops[0]), ops[1..], states))
  }

  /** One operation either leaves a waiting subscriber registered, or closes its channel; it does the
      latter exactly when it brings the state to one the subscriber waits for. */
  lemma WakeNow(m: Model, op: Op, sub: Subscriber)
    requires Sound(m) && sub in m.subs && op != Timeout(sub.ch)
    ensures var m1 := Apply(m, op);
            if m1.current in sub.states then sub.ch in m1.closed
            else sub in m1.subs && sub.ch !in m1.closed
  {
    ApplySound(m, op);
    var m1 := Apply(m, op);
    if op.Timeout? {
      var at := WithoutChannelIsFilter(m.subs, op.ch);
    } else if m1.current == m.current && m1.closed == m.closed && sub in m1.subs {
    } else {
      var at := UnmatchedIsFilter(m.subs, m1.current);
      MatchedAreClosedOnce(m.subs, m1.current);
      assert m1.current in sub.states ==> WaitsOn(m.subs, sub.ch, m1.current);
    }
  }

  lemma {:induction false} StaysClosed(m: Model, ops: seq<Op>, ch: nat)
    requires ch in m.closed
    ensures ch in ApplyAll(m, ops).closed
    decreases |ops|
  {
    if ops != [] {
      StaysClosed(Apply(m, ops[0]), ops[1..], ch);
    }
  }

  /** No wake-up is lost and none is spurious: unless it gives up, a waiter registered in m has been
      woken by the end of a run exactly when the run brought the state to one it waits for. */
  lemma {:induction false} WokenIffVisited(m: Model, ops: seq<Op>, sub: Subscriber)
    requires Sound(m) && sub in m.subs && Timeout(sub.ch) !in ops
    ensures sub.ch in ApplyAll(m, ops).closed <==> Visits(m, ops, sub.states)
    decreases |ops|
  {
    if ops != [] {
      var m1 := Apply(m, ops[0]);
      ApplySound(m, ops[0]);
      WakeNow(m, ops[0], sub);
      if m1.current in sub.states {
        StaysClosed(m1, ops[1..], sub.ch);
      } else {
        WokenIffVisited(m1, ops[1..], sub);
      }
    }
  }

  /** A WaitFor that finds none of its states registers a waiter for all of them behind the others, with a
      channel nobody had before; one that finds its state registers nothing. */
  lemma WaitRegisters(m: Model, states: seq<State>)
    requires Sound(m)
    ensures var m1 := Apply(m, Wait(states));
            && m1.current == m.current && m1.closed == m.closed
            && m1.subs == m.subs + (if m.current in states then [] else [Subscriber(states, m.next)])
            && (m.current !in states ==> !Registered(m, m.next) && m.next !in m.closed && m.next < m1.next)
  {
  }

  /** WaitFor returns exactly when it should: it finds one of its states, or, whatever the others do, its
      channel is closed by the end of a run if and only if the run visits one of them. */
  lemma WaitForReturnsIff(m: Model, states: seq<State>, ops: seq<Op>)
    requires Sound(m) && m.current !in states && Timeout(m.next) !in ops
    ensures var m1 := Apply(m, Wait(states));
            m.next in ApplyAll(m1, ops).closed <==> Visits(m1, ops, states)
  {
    WaitRegisters(m, states);
    ApplySound(m, Wait(states));
    WokenIffVisited(Apply(m, Wait(states)), ops, Subscriber(states, m.next));
  }

  /** What an operation does to the state, said without subscribers. */
  function NextState(st: State, op: Op): State {
    match op
    case Set(to) => to
    case CompareAndSwap(from, to) => if st == from then to else st
    case RequestChange(to) => if st == Ready || st == Inactive then to else st
    case Wait(_) | Timeout(_) => st
  }

  /** Waiters never influence the state. */
  lemma StateIgnoresWaiters(m: Model, op: Op)
    ensures Apply(m, op).current == NextState(m.current, op)
  {
  }

  lemma StaysUnregistered(m: Model, op: Op, ch: nat)
    requires Sound(m) && ch < m.next && ch !in m.closed && !Registered(m, ch)
    ensures ch !in Apply(m, op).closed && !Registered(Apply(m, op), ch)
  {
    var m1 := Apply(m, op);
    if op.Timeout? {
      var at := WithoutChannelIsFilter(m.subs, op.ch);
    } else if !op.Wait? {
      var at := UnmatchedIsFilter(m.subs, m1.current);
      MatchedAreClosedOnce(m.subs, m1.current);
      assert !WaitsOn(m.subs, ch, m1.current);
    }
  }

  /** A waiter that gave up before being woken is never notified afterwards. */
  lemma {:induction false} NeverNotifiedAfterTimeout(m: Model, ops: seq<Op>, ch: nat)
    requires Sound(m) && ch < m.next && ch !in m.closed && !Registered(m, ch)
    ensures ch !in ApplyAll(m, ops).closed
    decreases |ops|
  {
    if ops != [] {
      ApplySound(m, ops[0]);
      StaysUnregistered(m, ops[0], ch);
      NeverNotifiedAfterTimeout(Apply(m, ops[0]), ops[1..], ch);
    }
  }

  /* ---------- the whole of RequestSafeStateChange ---------- */

  /** The states a request waits for between two attempts. */
  const STABLE: seq<State> := [Ready, Inactive, Reserved, Done]

  /** What the others do between two attempts: before the request registers as a waiter, and after. */
  datatype Round = Round(before: seq<Op>, after: seq<Op>)

  datatype Answer = Refusal | Grant | StillWaiting

  /** The others never time out the request's own channel. */
  ghost predicate Undisturbed(m: Model, round: Round) {
    var m1 := ApplyAll(m, round.before);
    m1.current !in STABLE ==> Timeout(m1.next) !in round.after
  }

  /** The state after a round, and whether the wait of that round is over. */
  function WaitRound(m: Model, round: Round): (Model, bool) {
    var m1 := ApplyAll(m, round.before);
    var m2 := ApplyAll(Apply(m1, Wait(STABLE)), round.after);
    (m2, m1.current in STABLE || m1.next in m2.closed)
  }

  /** RequestSafeStateChange: attempt, wait for a stable state, attempt again. */
  function Request(m: Model, to: State, rounds: seq<Round>): (Model, Answer)
    decreases |rounds|
  {
    match SafeChangeIn(m.current)
    case Refused => (m, Refusal)
    case Granted => (Apply(m, RequestChange(to)), Grant)
    case MustWait =>
      if rounds == [] then (m, StillWaiting) else
      var (m1, woken) := WaitRound(m, rounds[0]);
      if woken then Request(m1, to, rounds[1..]) else (m1, StillWaiting)
  }

  ghost predicate AllUndisturbed(m: Model, rounds: seq<Round>)
    decreases |rounds|
  {
    rounds == [] || (Undisturbed(m, rounds[0]) && AllUndisturbed(WaitRound(m, rounds[0]).0, rounds[1..]))
  }

  /** The states waited for are those in which an attempt is answered, but for ShuttingDown: a thread that
      is shutting down goes on to Done, and only then is its C thread gone. */
  lemma StableIff(st: State)
    ensures st in STABLE <==> SafeChangeIn(st) != MustWait && st != ShuttingDown
  {
  }

  /** The wait of a round is over if and only if the state was stable when it began or became stable
      since: no stable state is missed, however briefly it lasts. */
  lemma RoundEndsIff(m: Model, round: Round)
    requires Sound(m) && Undisturbed(m, round)
    ensures var m1 := ApplyAll(m, round.before);
            WaitRound(m, round).1 <==> m1.current in STABLE || Visits(Apply(m1, Wait(STABLE)), round.after, STABLE)
    ensures Sound(WaitRound(m, round).0)
  {
    var m1 := ApplyAll(m, round.before);
    AlwaysSound(m, round.before);
    var m2 := Apply(m1, Wait(STABLE));
    ApplySound(m1, Wait(STABLE));
    AlwaysSound(m2, round.after);
    if m1.current !in STABLE {
      WokenIffVisited(m2, round.after, Subscriber(STABLE, m1.next));
    }
  }

  /** The state after the first n rounds, each of which ended with a look at the state. */
  function AfterRounds(m: Model, rounds: seq<Round>, n: nat): Model
    requires n <= |rounds|
    decreases n
  {
    if n == 0 then m else AfterRounds(WaitRound(m, rounds[0]).0, rounds[1..], n - 1)
  }

  /** In this round a stable state was there or was visited. */
  ghost predicate Stabilizes(m: Model, round: Round) {
    var m1 := ApplyAll(m, round.before);
    m1.current in STABLE || Visits(Apply(m1, Wait(STABLE)), round.after, STABLE)
  }

  /** Attempt k had to wait, and its wait ended because a stable state was there or was visited. */
  ghost predicate WaitedAt(m: Model, rounds: seq<Round>, k: nat)
    requires k < |rounds|
  {
    SafeChangeIn(AfterRounds(m, rounds, k).current) == MustWait && Stabilizes(AfterRounds(m, rounds, k), rounds[k])
  }

  /** The last attempt came after n rounds, and this is what became of it. */
  ghost predicate AnsweredAt(m: Model, to: State, rounds: seq<Round>, n: nat)
    requires n <= |rounds|
  {
    var (end, answer) := Request(m, to, rounds);
    var last := AfterRounds(m, rounds, n);
    && (answer == Grant <==> last.current in {Ready, Inactive})
    && (answer == Grant ==> end == Enter(last, to))
    && (answer == Refusal <==> last.current in {Reserved, ShuttingDown, Done})
    && (answer == Refusal ==> end == last)
    && (answer == StillWaiting ==> n == |rounds| || !Stabilizes(last, rounds[n]))
  }

  lemma OneRoundEarlier(m: Model, to: State, rounds: seq<Round>, n: nat)
    requires rounds != [] && n <= |rounds| - 1
    requires SafeChangeIn(m.current) == MustWait && WaitRound(m, rounds[0]).1
    requires AnsweredAt(WaitRound(m, rounds[0]).0, to, rounds[1..], n)
    ensures AnsweredAt(m, to, rounds, n + 1)
    ensures Request(m, to, rounds) == Request(WaitRound(m, rounds[0]).0, to, rounds[1..])
  {
    var m1, rest := WaitRound(m, rounds[0]).0, rounds[1..];
    assert Request(m, to, rounds) == Request(m1, to, rest);
    assert AfterRounds(m, rounds, n + 1) == AfterRounds(m1, rest, n);
    assert n < |rest| ==> rest[n] == rounds[n + 1];
  }

  lemma WaitedEarlier(m: Model, rounds: seq<Round>, k: nat)
    requires k + 1 < |rounds| && WaitedAt(WaitRound(m, rounds[0]).0, rounds[1..], k)
    ensures WaitedAt(m, rounds, k + 1)
  {
    assert AfterRounds(m, rounds, k + 1) == AfterRounds(WaitRound(m, rounds[0]).0, rounds[1..], k);
    assert rounds[1..][k] == rounds[k + 1];
  }

  lemma WaitedFirst(m: Model, rounds: seq<Round>)
    requires Sound(m) && AllUndisturbed(m, rounds) && rounds != []
    requires SafeChangeIn(m.current) == MustWait && WaitRound(m, rounds[0]).1
    ensures WaitedAt(m, rounds, 0)
    ensures Sound(WaitRound(m, rounds[0]).0) && AllUndisturbed(WaitRound(m, rounds[0]).0, rounds[1..])
  {
    RoundEndsIff(m, rounds[0]);
  }

  lemma FirstIsLast(m: Model, to: State, rounds: seq<Round>)
    requires Sound(m) && AllUndisturbed(m, rounds)
    requires SafeChangeIn(m.current) == MustWait && rounds != [] ==> !WaitRound(m, rounds[0]).1
    ensures AnsweredAt(m, to, rounds, 0) && Sound(Request(m, to, rounds).0)
  {
    match SafeChangeIn(m.current)
    case Granted => ApplySound(m, RequestChange(to));
    case Refused =>
    case MustWait => if rounds != [] { RoundEndsIff(m, rounds[0]); }
  }

  /** A request makes its last attempt after n rounds, all of which had to be waited out and ended with a
      stable state. It is granted exactly if that attempt finds Ready or Inactive, in one step; refused
      exactly if it finds Reserved, ShuttingDown or Done; and still waits only if no answer was possible
      and no stable state was there or visited since. */
  lemma {:induction false} RequestIsAnswered(m: Model, to: State, rounds: seq<Round>) returns (n: nat)
    requires Sound(m) && AllUndisturbed(m, rounds)
    ensures n <= |rounds| && forall k | 0 <= k < n :: WaitedAt(m, rounds, k)
    ensures AnsweredAt(m, to, rounds, n) && Sound(Request(m, to, rounds).0)
    decreases |rounds|
  {
    if SafeChangeIn(m.current) == MustWait && rounds != [] && WaitRound(m, rounds[0]).1 {
      WaitedFirst(m, rounds);
      var k := RequestIsAnswered(WaitRound(m, rounds[0]).0, to, rounds[1..]);
      OneRoundEarlier(m, to, rounds, k);
      n := k + 1;
      forall j | 0 <= j < n
        ensures WaitedAt(m, rounds, j)
      {
        if j > 0 { WaitedEarlier(m, rounds, j - 1); }
      }
    } else {
      FirstIsLast(m, to, rounds);
      n := 0;
    }
  }
}

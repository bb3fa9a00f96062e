/**
  Automatic scaling (scaling.go), the thread lists of the pools (worker.go attach/detach and the thread
  limit) and the adoption of autoscaled threads by restored pools (phpthread.go poolRestored).
  The additions, adoptions and downscale passes run under scalingMu; a detachment may come at any time and
  only shortens a list. Threads are identified by their index.
 */
module Scaling {

  const MAX_TERMINATION_COUNT := 10

  /* ---------- deactivateThreads ---------- */

  /** What the pass sees of a thread when it comes to it. */
  datatype Look = Look(reserved: bool, ready: bool, waitTime: nat)

  datatype Verdict = Keep | Forget | Convert

  function Judge(look: Look, stopped: nat, maxIdle: nat): Verdict {
    if look.reserved then Forget
    else if stopped > MAX_TERMINATION_COUNT || look.waitTime == 0 then Keep
    else if look.ready && look.waitTime > maxIdle then Convert
    else Keep
  }

  /** How many threads have been converted once the pass has dealt with the indices from i on. */
  function Stopped(looks: seq<Look>, maxIdle: nat, i: nat): nat
    requires i <= |looks|
    decreases |looks| - i
  {
    if i == |looks| then 0 else
    var after := Stopped(looks, maxIdle, i + 1);
    if Judge(looks[i], after, maxIdle) == Convert then after + 1 else after
  }

  /** What the pass decides about index i. */
  function VerdictAt(looks: seq<Look>, maxIdle: nat, i: nat): Verdict
    requires i < |looks|
  {
    Judge(looks[i], Stopped(looks, maxIdle, i + 1), maxIdle)
  }

  /** The threads from index i on that are neither forgotten nor converted, in order. */
  function Remaining(threads: seq<nat>, looks: seq<Look>, maxIdle: nat, i: nat): seq<nat>
    requires i <= |looks| == |threads|
    decreases |looks| - i
  {
    if i == |looks| then []
    else (if VerdictAt(looks, maxIdle, i) == Keep then [threads[i]] else []) + Remaining(threads, looks, maxIdle, i + 1)
  }

  /** The threads from index i on that are converted, in the order the backward pass comes to them. */
  function Converted(threads: seq<nat>, looks: seq<Look>, maxIdle: nat, i: nat): seq<nat>
    requires i <= |looks| == |threads|
    decreases |looks| - i
  {
    if i == |looks| then []
    else Converted(threads, looks, maxIdle, i + 1) + (if VerdictAt(looks, maxIdle, i) == Convert then [threads[i]] else [])
  }

  /** A thread that may be converted if the pass has not yet converted too many. */
  predicate Eligible(look: Look, maxIdle: nat) {
    !look.reserved && look.ready && look.waitTime > maxIdle
  }

  /** The number of eligible threads from index i on. */
  function EligibleFrom(looks: seq<Look>, maxIdle: nat, i: nat): nat
    requires i <= |looks|
    decreases |looks| - i
  {
    if i == |looks| then 0
    else EligibleFrom(looks, maxIdle, i + 1) + (if Eligible(looks[i], maxIdle) then 1 else 0)
  }

  /** The running count is the number of eligible threads seen, capped at MAX_TERMINATION_COUNT + 1. */
  lemma {:induction false} StoppedIsCapped(looks: seq<Look>, maxIdle: nat, i: nat)
    requires i <= |looks|
    ensures Stopped(looks, maxIdle, i) == Min(MAX_TERMINATION_COUNT + 1, EligibleFrom(looks, maxIdle, i))
    decreases |looks| - i
  {
    if i < |looks| {
      StoppedIsCapped(looks, maxIdle, i + 1);
    }
  }

  /** A thread is converted if and only if it is eligible and at most MAX_TERMINATION_COUNT threads behind
      it are: the longest listed stay. It is forgotten if and only if its slot is Reserved. */
  lemma ConvertedIff(looks: seq<Look>, maxIdle: nat, i: nat)
    requires i < |looks|
    ensures VerdictAt(looks, maxIdle, i) == Convert
       <==> Eligible(looks[i], maxIdle) && EligibleFrom(looks, maxIdle, i + 1) <= MAX_TERMINATION_COUNT
    ensures VerdictAt(looks, maxIdle, i) == Forget <==> looks[i].reserved
  {
    StoppedIsCapped(looks, maxIdle, i + 1);
  }

  lemma {:induction false} ConvertedLength(threads: seq<nat>, looks: seq<Look>, maxIdle: nat, i: nat)
    requires i <= |looks| == |threads|
    ensures |Converted(threads, looks, maxIdle, i)| == Stopped(looks, maxIdle, i)
    decreases |looks| - i
  {
    if i < |looks| {
      ConvertedLength(threads, looks, maxIdle, i + 1);
    }
  }

  /** slices.Delete(s, i, i+1) on the first n elements: those behind i move down by one. */
  method DeleteAt(s: array<nat>, n: nat, i: nat)
    requires i < n <= s.Length
    modifies s
    ensures forall j | 0 <= j < i :: s[j] == old(s[j])
    ensures forall j | i <= j < n - 1 :: s[j] == old(s[j + 1])
  {
    var k := i;
    while k < n - 1
      invariant i <= k <= n - 1
      invariant forall j | 0 <= j < i :: s[j] == old(s[j])
      invariant forall j | i <= j < k :: s[j] == old(s[j + 1])
      invariant forall j | k <= j < s.Length :: s[j] == old(s[j])
    {
      s[k] := s[k + 1];
      k := k + 1;
    }
    s[n - 1] := 0;
  }

  /** Walks the list backwards and deletes in place while iterating over it. What is left is exactly what
      no verdict removed, in the order it had; the conversions are those of the specification, at most
      MAX_TERMINATION_COUNT + 1 of them. */
  method DeactivateThreads(s: array<nat>, n: nat, looks: seq<Look>, maxIdle: nat)
    returns (left: nat, converted: seq<nat>)
    requires n <= s.Length && |looks| == n
    modifies s
    ensures left <= n && s[..left] == Remaining(old(s[..n]), looks, maxIdle, 0)
    ensures converted == Converted(old(s[..n]), looks, maxIdle, 0)
    ensures |converted| <= MAX_TERMINATION_COUNT + 1
  {
    ghost var threads, rest := s[..n], [];
    var i := n;
    var stopped := 0;
    left, converted := n, [];
    while i > 0
      invariant i <= n && left == i + |rest| <= n
      invariant forall k | 0 <= k < i :: s[k] == threads[k]
      invariant forall k | i <= k < left :: s[k] == rest[k - i]
      invariant rest == Remaining(threads, looks, maxIdle, i)
      invariant stopped == Stopped(looks, maxIdle, i)
      invariant converted == Converted(threads, looks, maxIdle, i)
    {
      i := i - 1;
      var thread, look := s[i], looks[i];
      var verdict := Judge(look, stopped, maxIdle);
      if verdict == Convert {
        converted := converted + [thread];
        stopped := stopped + 1;
      }
      if verdict == Keep {
        rest := [thread] + rest;
      } else {
        DeleteAt(s, left, i);
        left := left - 1;
      }
    }
    assert s[..left] == rest;
    StoppedIsCapped(looks, maxIdle, 0);
    ConvertedLength(threads, looks, maxIdle, 0);
  }

  /* ---------- poolRestored ---------- */

  /** The threads of a pool that are not autoscaled. */
  function Configured(pool: seq<nat>, scaled: seq<nat>): nat {
    if pool == [] then 0 else
    Configured(pool[..|pool| - 1], scaled) + (if pool[|pool| - 1] in scaled then 0 else 1)
  }

  /** The positions of the threads that are not autoscaled. */
  ghost function ConfiguredAt(pool: seq<nat>, scaled: seq<nat>): set<nat> {
    set k: nat | k < |pool| && pool[k] !in scaled
  }

  lemma {:induction false} ConfiguredCounts(pool: seq<nat>, scaled: seq<nat>)
    ensures Configured(pool, scaled) == |ConfiguredAt(pool, scaled)|
  {
    if pool == [] {
      assert ConfiguredAt(pool, scaled) == {};
    } else {
      var n := |pool| - 1;
      ConfiguredCounts(pool[..n], scaled);
      assert ConfiguredAt(pool, scaled) == ConfiguredAt(pool[..n], scaled) + (if pool[n] in scaled then {} else {n});
    }
  }

  predicate Distinct(s: seq<nat>) {
    forall j, k | 0 <= j < k < |s| :: s[j] != s[k]
  }

  function IndexOf(s: seq<nat>, t: nat): (i: nat)
    requires t in s
    ensures i < |s| && s[i] == t && t !in s[..i]
  {
    if s[0] == t then 0 else
    var i := IndexOf(s[1..], t);
    assert s[..i + 1] == [s[0]] + s[1..][..i];
    i + 1
  }

  function Delete(s: seq<nat>, i: nat): seq<nat>
    requires i < |s|
  {
    s[..i] + s[i + 1..]
  }

  class Scaler {
    var autoScaled: seq<nat>

    /** trackAutoScaledThread */
    method Track(t: nat)
      modifies this
      ensures autoScaled == if t in old(autoScaled) then old(autoScaled) else old(autoScaled) + [t]
      ensures Distinct(old(autoScaled)) ==> Distinct(autoScaled)
    {
      if t !in autoScaled {
        autoScaled := autoScaled + [t];
      }
    }

    /** A pool is restored when it has its configured threads again, or when an autoscaled thread that
        took a slot can be adopted: the last of the pool's threads that is listed leaves the list, and the
        pool has more configured threads than before. */
    method PoolRestored(size: nat, pool: seq<nat>) returns (restored: bool)
      requires Distinct(autoScaled)
      modifies this
      ensures Distinct(autoScaled)
      ensures restored <==> Configured(pool, old(autoScaled)) >= size || exists t | t in pool :: t in old(autoScaled)
      ensures Configured(pool, old(autoScaled)) >= size || !restored ==> autoScaled == old(autoScaled)
      ensures restored && Configured(pool, old(autoScaled)) < size ==>
                && Configured(pool, autoScaled) > Configured(pool, old(autoScaled))
                && (Distinct(pool) ==> Configured(pool, autoScaled) == Configured(pool, old(autoScaled)) + 1)
                && exists k | LastListed(pool, old(autoScaled), k) ::
                     autoScaled == Delete(old(autoScaled), IndexOf(old(autoScaled), pool[k]))
    {
      var configured: nat := 0;
      var found: int := -1;
      ghost var last := 0;
      for k := 0 to |pool|
        invariant configured == Configured(pool[..k], autoScaled)
        invariant found == -1 ==> forall j | 0 <= j < k :: pool[j] !in autoScaled
        invariant found != -1 ==> 0 <= last < k && pool[last] in autoScaled && found == IndexOf(autoScaled, pool[last])
        invariant found != -1 ==> forall j | last < j < k :: pool[j] !in autoScaled
      {
        assert pool[..k + 1][..k] == pool[..k];
        if pool[k] in autoScaled {
          found := IndexOf(autoScaled, pool[k]);
          last := k;
        } else {
          configured := configured + 1;
        }
      }
      assert pool[..|pool|] == pool;
      if configured >= size {
        return true;
      }
      if found < 0 {
        return false;
      }
      assert LastListed(pool, autoScaled, last);
      Adopt(pool, autoScaled, found);
      autoScaled := Delete(autoScaled, found);
      restored := true;
    }
  }

  /** pool[k] is listed as autoscaled, and no later thread of the pool is. */
  predicate LastListed(pool: seq<nat>, scaled: seq<nat>, k: int) {
    0 <= k < |pool| && pool[k] in scaled && forall j | k < j < |pool| :: pool[j] !in scaled
  }

  lemma DeleteElements(s: seq<nat>, i: nat)
    requires i < |s| && Distinct(s)
    ensures Distinct(Delete(s, i)) && forall t :: t in Delete(s, i) <==> t in s && t != s[i]
  {
    assert s == s[..i] + [s[i]] + s[i + 1..];
  }

  lemma Adopt(pool: seq<nat>, scaled: seq<nat>, i: nat)
    requires Distinct(scaled) && i < |scaled| && scaled[i] in pool
    ensures Configured(pool, Delete(scaled, i)) > Configured(pool, scaled)
    ensures Distinct(pool) ==> Configured(pool, Delete(scaled, i)) == Configured(pool, scaled) + 1
    ensures Distinct(Delete(scaled, i))
  {
    DeleteElements(scaled, i);
    AdoptIn(pool, scaled, Delete(scaled, i), scaled[i]);
    if Distinct(pool) {
      OccursOnce(pool, scaled[i]);
    }
  }

  /** Taking t off the list makes each of its occurrences in the pool a configured thread. */
  lemma {:induction false} AdoptIn(pool: seq<nat>, scaled: seq<nat>, less: seq<nat>, t: nat)
    requires t in scaled && forall x :: x in less <==> x in scaled && x != t
    ensures Configured(pool, less) == Configured(pool, scaled) + multiset(pool)[t]
  {
    if pool != [] {
      var n := |pool| - 1;
      AdoptIn(pool[..n], scaled, less, t);
      assert pool == pool[..n] + [pool[n]];
    }
  }

  lemma {:induction false} OccursOnce(pool: seq<nat>, t: nat)
    requires Distinct(pool)
    ensures multiset(pool)[t] == if t in pool then 1 else 0
  {
    if pool != [] {
      var n := |pool| - 1;
      OccursOnce(pool[..n], t);
      assert pool == pool[..n] + [pool[n]];
    }
  }

  /* ---------- the thread list of a worker ---------- */

  class WorkerPool {
    var threads: seq<nat>
    const maxThreads: int

    constructor (maxThreads: int)
      ensures threads == [] && this.maxThreads == maxThreads
    {
      threads := [];
      this.maxThreads := maxThreads;
    }

    method AttachThread(t: nat)
      modifies this
      ensures threads == old(threads) + [t]
    {
      threads := threads + [t];
    }

    /** The first occurrence goes, and the others stay in order. */
    method DetachThread(t: nat)
      modifies this
      ensures t !in old(threads) ==> threads == old(threads)
      ensures t in old(threads) ==>
                exists i | 0 <= i < |old(threads)| ::
                  old(threads)[i] == t && t !in old(threads)[..i] && threads == old(threads)[..i] + old(threads)[i + 1..]
    {
      for i := 0 to |threads|
        invariant threads == old(threads) && t !in threads[..i]
      {
        if threads[i] == t {
          threads := threads[..i] + threads[i + 1..];
          return;
        }
      }
      assert threads[..|threads|] == threads;
    }

    method IsAtThreadLimit() returns (full: bool)
      ensures full <==> maxThreads > 0 && |threads| >= maxThreads
    {
      if maxThreads <= 0 {
        return false;
      }
      full := |threads| >= maxThreads;
    }
  }

  /* ---------- every sequence of scaling operations ---------- */

  /** A pool's threads, the number it was configured with, and its maximum (0: none). */
  datatype Pool = Pool(threads: seq<nat>, num: nat, maxThreads: nat)

  /** `maxScaled` is maxThreads - numThreads. `cleared` tells that the upscaling goroutine has found the list
      shorter than that since its last attempt to scale: then, and only then, it waits for a request to scale. */
  datatype State = State(pools: seq<Pool>, autoScaled: seq<nat>, maxScaled: nat, cleared: bool)

  predicate AtLimit(p: Pool) {
    p.maxThreads > 0 && |p.threads| >= p.maxThreads
  }

  /** detachThread: the first occurrence goes. */
  function Detach(threads: seq<nat>, t: nat): seq<nat> {
    if t in threads then Delete(threads, IndexOf(threads, t)) else threads
  }

  datatype Op =
    | CheckLimit                              // the upscaling goroutine reads the length of the list
    | ScaleUp(pool: nat, t: nat)              // its next attempt: addWorkerThread / addRegularThread, then track
    | ScaleFailed                             // ... which adds nothing
    | Restore(pool: nat, t: nat)              // the same, for a restored thread: not tracked
    | Adopted(i: nat)                         // poolRestored takes a thread over
    | Downscale(looks: seq<Look>, maxIdle: nat)
    | Detached(pool: nat, t: nat)             // downscaled, converted, or released after a failed reboot

  function Attach(s: State, p: nat, t: nat): State
    requires p < |s.pools|
  {
    if AtLimit(s.pools[p]) then s
    else s.(pools := s.pools[p := s.pools[p].(threads := s.pools[p].threads + [t])])
  }

  function Apply(s: State, op: Op): State {
    match op
    case CheckLimit => s.(cleared := |s.autoScaled| < s.maxScaled)
    case ScaleFailed => s.(cleared := false)
    case ScaleUp(p, t) =>
      if !s.cleared || p >= |s.pools| then s
      else if AtLimit(s.pools[p]) then s.(cleared := false)
      else
        var s1 := Attach(s, p, t).(cleared := false);
        if t in s1.autoScaled then s1 else s1.(autoScaled := s1.autoScaled + [t])
    case Restore(p, t) => if p < |s.pools| then Attach(s, p, t) else s
    case Adopted(i) => if i < |s.autoScaled| then s.(autoScaled := Delete(s.autoScaled, i)) else s
    case Downscale(looks, maxIdle) =>
      if |looks| == |s.autoScaled| then s.(autoScaled := Remaining(s.autoScaled, looks, maxIdle, 0)) else s
    case Detached(p, t) =>
      if p < |s.pools| then s.(pools := s.pools[p := s.pools[p].(threads := Detach(s.pools[p].threads, t))]) else s
  }

  function ApplyAll(s: State, ops: seq<Op>): State
    decreases |ops|
  {
    if ops == [] then s else ApplyAll(Apply(s, ops[0]), ops[1..])
  }

  function Min(a: nat, b: nat): nat {
    if a < b then a else b
  }

  function Max(a: nat, b: nat): nat {
    if a < b then b else a
  }

  ghost predicate Inv(s: State) {
    && Distinct(s.autoScaled)
    && |s.autoScaled| <= s.maxScaled && (s.cleared ==> |s.autoScaled| < s.maxScaled)
    && forall p | 0 <= p < |s.pools| ::
         s.pools[p].maxThreads > 0 ==> |s.pools[p].threads| <= Max(s.pools[p].num, s.pools[p].maxThreads)
  }

  /** The indices from i on that the pass keeps. */
  function KeptAt(looks: seq<Look>, maxIdle: nat, i: nat): seq<nat>
    requires i <= |looks|
    decreases |looks| - i
  {
    if i == |looks| then []
    else (if VerdictAt(looks, maxIdle, i) == Keep then [i] else []) + KeptAt(looks, maxIdle, i + 1)
  }

  /** Increasing indices from lo on, below hi. */
  predicate Increasing(at: seq<nat>, lo: nat, hi: nat) {
    && (forall k | 0 <= k < |at| :: lo <= at[k] < hi)
    && (forall j, k | 0 <= j < k < |at| :: at[j] < at[k])
  }

  lemma {:induction false} KeptAtIncreases(looks: seq<Look>, maxIdle: nat, i: nat)
    requires i <= |looks|
    ensures Increasing(KeptAt(looks, maxIdle, i), i, |looks|)
    decreases |looks| - i
  {
    if i < |looks| {
      KeptAtIncreases(looks, maxIdle, i + 1);
    }
  }

  lemma {:induction false} KeptAtIff(looks: seq<Look>, maxIdle: nat, i: nat, x: nat)
    requires i <= x < |looks|
    ensures x in KeptAt(looks, maxIdle, i) <==> VerdictAt(looks, maxIdle, x) == Keep
    decreases |looks| - i
  {
    if x > i {
      KeptAtIff(looks, maxIdle, i + 1, x);
    } else {
      KeptAtIncreases(looks, maxIdle, i + 1);
    }
  }

  /** The threads at these indices, in this order. */
  function Pick(threads: seq<nat>, at: seq<nat>): seq<nat>
    requires forall k | 0 <= k < |at| :: at[k] < |threads|
  {
    seq(|at|, k requires 0 <= k < |at| => threads[at[k]])
  }

  /** What is left is a subsequence: the threads at the increasing indices KeptAt, in that order. */
  lemma {:induction false} RemainingKeepsOrder(threads: seq<nat>, looks: seq<Look>, maxIdle: nat, i: nat)
    requires i <= |looks| == |threads|
    ensures Increasing(KeptAt(looks, maxIdle, i), i, |threads|)
    ensures Remaining(threads, looks, maxIdle, i) == Pick(threads, KeptAt(looks, maxIdle, i))
    decreases |looks| - i
  {
    KeptAtIncreases(looks, maxIdle, i);
    if i < |looks| {
      RemainingKeepsOrder(threads, looks, maxIdle, i + 1);
      var rest := KeptAt(looks, maxIdle, i + 1);
      assert Pick(threads, [i] + rest) == [threads[i]] + Pick(threads, rest);
      assert [] + rest == rest && [] + Pick(threads, rest) == Pick(threads, rest);
    }
  }

  /** The indices from i on that are converted, last first. */
  function ConvertedAt(looks: seq<Look>, maxIdle: nat, i: nat): seq<nat>
    requires i <= |looks|
    decreases |looks| - i
  {
    if i == |looks| then []
    else ConvertedAt(looks, maxIdle, i + 1) + (if VerdictAt(looks, maxIdle, i) == Convert then [i] else [])
  }

  predicate Decreasing(at: seq<nat>, lo: nat, hi: nat) {
    && (forall k | 0 <= k < |at| :: lo <= at[k] < hi)
    && (forall j, k | 0 <= j < k < |at| :: at[j] > at[k])
  }

  lemma {:induction false} ConvertedAtDecreases(looks: seq<Look>, maxIdle: nat, i: nat)
    requires i <= |looks|
    ensures Decreasing(ConvertedAt(looks, maxIdle, i), i, |looks|)
    decreases |looks| - i
  {
    if i < |looks| {
      ConvertedAtDecreases(looks, maxIdle, i + 1);
    }
  }

  lemma {:induction false} ConvertedAtIff(looks: seq<Look>, maxIdle: nat, i: nat, x: nat)
    requires i <= x < |looks|
    ensures x in ConvertedAt(looks, maxIdle, i) <==> VerdictAt(looks, maxIdle, x) == Convert
    decreases |looks| - i
  {
    if x > i {
      ConvertedAtIff(looks, maxIdle, i + 1, x);
    } else {
      ConvertedAtDecreases(looks, maxIdle, i + 1);
    }
  }

  /** The converted threads are those at the indices ConvertedAt, last first. */
  lemma {:induction false} ConvertedInOrder(threads: seq<nat>, looks: seq<Look>, maxIdle: nat, i: nat)
    requires i <= |looks| == |threads|
    ensures Decreasing(ConvertedAt(looks, maxIdle, i), i, |threads|)
    ensures Converted(threads, looks, maxIdle, i) == Pick(threads, ConvertedAt(looks, maxIdle, i))
    decreases |looks| - i
  {
    ConvertedAtDecreases(looks, maxIdle, i);
    if i < |looks| {
      ConvertedInOrder(threads, looks, maxIdle, i + 1);
      var rest := ConvertedAt(looks, maxIdle, i + 1);
      assert Pick(threads, rest + [i]) == Pick(threads, rest) + [threads[i]];
      assert rest + [] == rest && Pick(threads, rest) + [] == Pick(threads, rest);
    }
  }

  lemma RemainingIsDistinct(threads: seq<nat>, looks: seq<Look>, maxIdle: nat)
    requires |looks| == |threads| && Distinct(threads)
    ensures Distinct(Remaining(threads, looks, maxIdle, 0))
  {
    RemainingKeepsOrder(threads, looks, maxIdle, 0);
    var left, at := Remaining(threads, looks, maxIdle, 0), KeptAt(looks, maxIdle, 0);
    forall j, k | 0 <= j < k < |left|
      ensures left[j] != left[k]
    {
      assert at[j] < at[k] && threads[at[j]] == left[j] && threads[at[k]] == left[k];
    }
  }

  lemma {:induction false} RemainingIsShorter(threads: seq<nat>, looks: seq<Look>, maxIdle: nat, i: nat)
    requires i <= |looks| == |threads|
    ensures |Remaining(threads, looks, maxIdle, i)| <= |threads| - i
    decreases |looks| - i
  {
    if i < |looks| {
      RemainingIsShorter(threads, looks, maxIdle, i + 1);
    }
  }

  /** Pool p gains exactly thread t, at the end, exactly if it is below its maximum (and the limit was
      checked, if this is a scale-up); the list of autoscaled threads then holds t too, if t was scaled up.
      Every attempt to scale, successful or not, has to check the limit again. */
  lemma ScaleUpIff(s: State, p: nat, t: nat)
    requires p < |s.pools|
    ensures var pool := s.pools[p];
            var room := pool.maxThreads == 0 || |pool.threads| < pool.maxThreads;
            var up, back := Apply(s, ScaleUp(p, t)), Apply(s, Restore(p, t));
            && (s.cleared && room ==> up.pools == s.pools[p := pool.(threads := pool.threads + [t])] && t in up.autoScaled)
            && (!(s.cleared && room) ==> up.pools == s.pools && up.autoScaled == s.autoScaled)
            && (forall x :: x in up.autoScaled <==> x in s.autoScaled || (s.cleared && room && x == t))
            && back.pools == (if room then s.pools[p := pool.(threads := pool.threads + [t])] else s.pools)
            && back.autoScaled == s.autoScaled && back.cleared == s.cleared
            && !up.cleared && Apply(s, ScaleFailed) == s.(cleared := false)
  {
  }

  /** A detached thread leaves its pool once, and no other pool or thread is touched. */
  lemma DetachedLeavesOnce(s: State, p: nat, t: nat)
    requires p < |s.pools|
    ensures var before, after := s.pools[p].threads, Apply(s, Detached(p, t)).pools[p].threads;
            && multiset(after) == multiset(before) - multiset{t}
            && (t !in before ==> after == before)
            && Apply(s, Detached(p, t)) == s.(pools := s.pools[p := s.pools[p].(threads := after)])
  {
    DetachRemovesOne(s.pools[p].threads, t);
  }

  lemma DetachRemovesOne(threads: seq<nat>, t: nat)
    ensures multiset(Detach(threads, t)) == multiset(threads) - multiset{t}
  {
    if t in threads {
      var i := IndexOf(threads, t);
      assert threads == threads[..i] + [t] + threads[i + 1..];
    }
  }

  /** The upscaling goroutine may scale exactly if it finds room in the list; a downscale pass leaves the
      threads it keeps; an adopted thread leaves the list, and none of these touch a pool. */
  lemma ListOperations(s: State, i: nat, looks: seq<Look>, maxIdle: nat)
    requires i < |s.autoScaled| == |looks| && Distinct(s.autoScaled)
    ensures Apply(s, CheckLimit) == s.(cleared := |s.autoScaled| < s.maxScaled)
    ensures var a := Apply(s, Adopted(i));
            a.pools == s.pools && forall t :: t in a.autoScaled <==> t in s.autoScaled && t != s.autoScaled[i]
    ensures RemainingIndices(s, looks, maxIdle)
  {
    DeleteElements(s.autoScaled, i);
    RemainingKeepsOrder(s.autoScaled, looks, maxIdle, 0);
  }

  ghost predicate RemainingIndices(s: State, looks: seq<Look>, maxIdle: nat)
    requires |s.autoScaled| == |looks|
  {
    var d := Apply(s, Downscale(looks, maxIdle));
    var at := KeptAt(looks, maxIdle, 0);
    d.pools == s.pools && Increasing(at, 0, |looks|) && d.autoScaled == Pick(s.autoScaled, at)
  }

  lemma ApplyOk(s: State, op: Op)
    requires Inv(s)
    ensures Inv(Apply(s, op))
  {
    match op
    case CheckLimit =>
    case ScaleFailed =>
    case ScaleUp(p, t) =>
    case Restore(p, t) =>
    case Adopted(i) => if i < |s.autoScaled| { DeleteElements(s.autoScaled, i); }
    case Downscale(looks, maxIdle) =>
      if |looks| == |s.autoScaled| {
        RemainingIsDistinct(s.autoScaled, looks, maxIdle);
        RemainingIsShorter(s.autoScaled, looks, maxIdle, 0);
      }
    case Detached(p, t) =>
  }

  /** Over every sequence of scale-ups, restores, adoptions, downscales and detachments, the list of
      autoscaled threads has no duplicate and no more than maxThreads - numThreads entries, and no pool exceeds the larger of its configured number and
      its maximum. */
  lemma {:induction false} ScalingStaysInBounds(s: State, ops: seq<Op>)
    requires Inv(s)
    ensures Inv(ApplyAll(s, ops))
    decreases |ops|
  {
    if ops != [] {
      ApplyOk(s, ops[0]);
      ScalingStaysInBounds(Apply(s, ops[0]), ops[1..]);
    }
  }
}

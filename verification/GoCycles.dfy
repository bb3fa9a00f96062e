/** When converting a PHP value succeeds: exactly on acyclic graphs of supported values. */
module GoCycles {
  import opened GoBridge

  predicate Scalar(z: Zval) {
    z.ZNull? || z.ZBool? || z.ZLong? || z.ZDouble? || z.ZString?
  }

  /** A scalar or an array, itself or behind one reference. */
  predicate Supported(heap: Heap, z: Zval)
    requires HeapOk(heap) && ZvalOk(heap, z)
  {
    Scalar(z) || z.ZArray? || (z.ZReference? && (Scalar(heap[z.cell].val) || heap[z.cell].val.ZArray?))
  }

  /** The value is table b, or a reference to a cell that holds table b. */
  predicate LeadsTo(heap: Heap, z: Zval, b: nat)
    requires ZvalOk(heap, z)
  {
    z == ZArray(b) || (z.ZReference? && heap[z.cell].val == ZArray(b))
  }

  /** Table a holds, directly or through a reference, table b. */
  ghost predicate Edge(heap: Heap, a: nat, b: nat)
    requires HeapOk(heap)
  {
    a < |heap| && heap[a].Table? && CellOk(heap, heap[a])
    && exists k | 0 <= k < |heap[a].buckets| :: LeadsTo(heap, heap[a].buckets[k].val, b)
  }

  ghost predicate IsPath(heap: Heap, p: seq<nat>)
    requires HeapOk(heap)
  {
    p != [] && forall k | 0 <= k < |p| - 1 :: Edge(heap, p[k], p[k + 1])
  }

  ghost predicate Repeats(p: seq<nat>) {
    exists j, k | 0 <= j < k < |p| :: p[j] == p[k]
  }

  /** Table a directly holds a value of an unsupported type. */
  ghost predicate HoldsUnsupported(heap: Heap, a: nat)
    requires HeapOk(heap)
  {
    a < |heap| && heap[a].Table? && CellOk(heap, heap[a])
    && exists k | 0 <= k < |heap[a].buckets| ::
         !heap[a].buckets[k].val.ZUndef? && !Supported(heap, heap[a].buckets[k].val)
  }

  ghost predicate ReachesCycle(heap: Heap, root: nat)
    requires HeapOk(heap)
  {
    exists p | IsPath(heap, p) && p[0] == root :: Repeats(p)
  }

  ghost predicate ReachesUnsupported(heap: Heap, root: nat)
    requires HeapOk(heap)
  {
    exists p | IsPath(heap, p) && p[0] == root :: HoldsUnsupported(heap, p[|p| - 1])
  }

  /* ---------- from a result to the graph ---------- */

  lemma {:induction false} BucketsConverted(heap: Heap, buckets: seq<Bucket>, busy: set<nat>, k: nat)
    requires HeapOk(heap) && forall i | 0 <= i < |buckets| :: ZvalOk(heap, buckets[i].val)
    requires ConvertBuckets(heap, buckets, busy).Ok? && k < |buckets| && !buckets[k].val.ZUndef?
    ensures Convert(heap, buckets[k].val, busy).Ok?
    decreases |buckets|
  {
    if k < |buckets| - 1 {
      BucketsConverted(heap, buckets[..|buckets| - 1], busy, k);
    }
  }

  /** The element whose failure is reported. */
  lemma {:induction false} FailingBucket(heap: Heap, buckets: seq<Bucket>, busy: set<nat>) returns (k: nat)
    requires HeapOk(heap) && forall i | 0 <= i < |buckets| :: ZvalOk(heap, buckets[i].val)
    requires !ConvertBuckets(heap, buckets, busy).Ok?
    ensures k < |buckets| && !buckets[k].val.ZUndef?
    ensures Convert(heap, buckets[k].val, busy).Recursive? <==> ConvertBuckets(heap, buckets, busy).Recursive?
    ensures Convert(heap, buckets[k].val, busy).Unsupported? <==> ConvertBuckets(heap, buckets, busy).Unsupported?
    decreases |buckets|
  {
    var n := |buckets| - 1;
    if ConvertBuckets(heap, buckets[..n], busy).Ok? {
      k := n;
    } else {
      k := FailingBucket(heap, buckets[..n], busy);
    }
  }

  /** Success means that every path from the table avoids the busy tables, repeats no table, and
      ends in a table holding supported values only. */
  lemma {:induction false} SuccessIsClean(heap: Heap, a: nat, busy: set<nat>, p: seq<nat>)
    requires HeapOk(heap) && ZvalOk(heap, ZArray(a)) && Convert(heap, ZArray(a), busy).Ok?
    requires IsPath(heap, p) && p[0] == a
    ensures forall k | 0 <= k < |p| :: p[k] !in busy
    ensures !Repeats(p) && !HoldsUnsupported(heap, p[|p| - 1])
    decreases |p|
  {
    assert CellOk(heap, heap[a]);
    var buckets := heap[a].buckets;
    if |p| == 1 {
      forall k | 0 <= k < |buckets| && !buckets[k].val.ZUndef?
        ensures Supported(heap, buckets[k].val)
      {
        BucketsConverted(heap, buckets, busy + {a}, k);
      }
    } else {
      assert Edge(heap, p[0], p[1]);
      var k :| 0 <= k < |buckets| && LeadsTo(heap, buckets[k].val, p[1]);
      BucketsConverted(heap, buckets, busy + {a}, k);
      var rest := p[1..];
      forall i | 0 <= i < |rest| - 1
        ensures Edge(heap, rest[i], rest[i + 1])
      {
        assert Edge(heap, p[i + 1], p[i + 2]);
      }
      SuccessIsClean(heap, p[1], busy + {a}, rest);
      assert forall i | 0 < i < |p| :: p[i] == rest[i - 1] && p[i] !in busy + {a};
    }
  }

  /** A failure comes with a path that explains it. */
  lemma {:induction false} FailureHasPath(heap: Heap, a: nat, busy: set<nat>) returns (p: seq<nat>)
    requires HeapOk(heap) && ZvalOk(heap, ZArray(a)) && !Convert(heap, ZArray(a), busy).Ok?
    ensures IsPath(heap, p) && p[0] == a
    ensures Convert(heap, ZArray(a), busy).Recursive? ==> p[|p| - 1] in busy || Repeats(p)
    ensures Convert(heap, ZArray(a), busy).Unsupported? ==> HoldsUnsupported(heap, p[|p| - 1])
    decreases Unprotected(heap, busy)
  {
    if a in busy {
      return [a];
    }
    assert CellOk(heap, heap[a]);
    var buckets := heap[a].buckets;
    var k := FailingBucket(heap, buckets, busy + {a});
    var d := Deref(heap, buckets[k].val);
    if !d.ZArray? {
      return [a];
    }
    assert a in Unprotected(heap, busy) && a !in Unprotected(heap, busy + {a});
    var rest := FailureHasPath(heap, d.table, busy + {a});
    p := [a] + rest;
    assert LeadsTo(heap, buckets[k].val, d.table);
    assert Edge(heap, a, d.table);
    forall i | 0 <= i < |p| - 1
      ensures Edge(heap, p[i], p[i + 1])
    {
      if i > 0 { assert Edge(heap, rest[i - 1], rest[i]); }
    }
    if Repeats(rest) {
      var i, j :| 0 <= i < j < |rest| && rest[i] == rest[j];
      assert p[i + 1] == p[j + 1];
    }
  }

  /** goValue[any] on an array succeeds if and only if no cycle and no unsupported value can be
      reached from it; the error it reports is one that is really there. */
  lemma ConvertSucceedsIff(heap: Heap, a: nat)
    requires HeapOk(heap) && ZvalOk(heap, ZArray(a))
    ensures Convert(heap, ZArray(a), {}).Ok? <==> !ReachesCycle(heap, a) && !ReachesUnsupported(heap, a)
    ensures Convert(heap, ZArray(a), {}).Recursive? ==> ReachesCycle(heap, a)
    ensures Convert(heap, ZArray(a), {}).Unsupported? ==> ReachesUnsupported(heap, a)
  {
    if Convert(heap, ZArray(a), {}).Ok? {
      forall p | IsPath(heap, p) && p[0] == a
        ensures !Repeats(p) && !HoldsUnsupported(heap, p[|p| - 1])
      {
        SuccessIsClean(heap, a, {}, p);
      }
    } else {
      var p := FailureHasPath(heap, a, {});
    }
  }

  /** On supported values, "recursive array" is reported exactly when a cycle is reachable: shared
      but acyclic tables are accepted. */
  lemma RecursiveIffCycle(heap: Heap, a: nat)
    requires HeapOk(heap) && ZvalOk(heap, ZArray(a)) && !ReachesUnsupported(heap, a)
    ensures Convert(heap, ZArray(a), {}).Recursive? <==> ReachesCycle(heap, a)
  {
    ConvertSucceedsIff(heap, a);
  }

  /** A reference converts to what it refers to; one level is followed, not two. */
  lemma ReferencesAreFollowed(heap: Heap, c: nat, busy: set<nat>)
    requires HeapOk(heap) && ZvalOk(heap, ZReference(c)) && CellOk(heap, heap[c])
    ensures Convert(heap, ZReference(c), busy)
         == if heap[c].val.ZReference? then Unsupported else Convert(heap, heap[c].val, busy)
  {
  }

  /** An array element that is a reference, as foreach by reference leaves them. */
  lemma ReferenceInArray(heap: Heap, n: int)
    requires heap == [RefCell(ZLong(n)), Table(true, [Bucket(IntKey(0), ZReference(0))])]
    ensures HeapOk(heap) && Convert(heap, ZArray(1), {}) == Ok(GSlice([GInt(n)]))
  {
    assert forall a | 0 <= a < |heap| :: CellOk(heap, heap[a]);
    var buckets := heap[1].buckets;
    assert buckets[..0] == [];
    var pairs := [Pair(KeyString(IntKey(0)), GInt(n))];
    assert ConvertBuckets(heap, buckets, {1}) == Ok(pairs) by {
      assert ConvertBuckets(heap, buckets[..0], {1}) == Ok([]);
      assert [] + pairs == pairs;
    }
    assert {} + {1} == {1};
    assert Values(pairs) == [GInt(n)];
  }

  /* ---------- holes and keys that coincide ---------- */

  function WithoutHoles(buckets: seq<Bucket>): seq<Bucket> {
    if buckets == [] then [] else
    var n := |buckets| - 1;
    WithoutHoles(buckets[..n]) + (if buckets[n].val.ZUndef? then [] else [buckets[n]])
  }

  lemma {:induction false} NoHoleIsLeft(heap: Heap, buckets: seq<Bucket>)
    requires forall k | 0 <= k < |buckets| :: ZvalOk(heap, buckets[k].val)
    ensures forall k | 0 <= k < |WithoutHoles(buckets)| ::
              !WithoutHoles(buckets)[k].val.ZUndef? && ZvalOk(heap, WithoutHoles(buckets)[k].val)
  {
    if buckets != [] {
      NoHoleIsLeft(heap, buckets[..|buckets| - 1]);
    }
  }

  /** One bucket more. */
  lemma ConvertOneMore(heap: Heap, init: seq<Bucket>, last: Bucket, busy: set<nat>)
    requires HeapOk(heap) && (forall k | 0 <= k < |init| :: ZvalOk(heap, init[k].val)) && ZvalOk(heap, last.val)
    ensures forall k | 0 <= k < |init + [last]| :: ZvalOk(heap, (init + [last])[k].val)
    ensures !ConvertBuckets(heap, init, busy).Ok? ==> ConvertBuckets(heap, init + [last], busy) == ConvertBuckets(heap, init, busy)
    ensures last.val.ZUndef? ==> ConvertBuckets(heap, init + [last], busy) == ConvertBuckets(heap, init, busy)
    ensures ConvertBuckets(heap, init, busy).Ok? && !last.val.ZUndef? ==>
              ConvertBuckets(heap, init + [last], busy) == match Convert(heap, last.val, busy)
                                                          case Ok(v) => Ok(ConvertBuckets(heap, init, busy).value + [Pair(KeyString(last.key), v)])
                                                          case Recursive => Recursive
                                                          case Unsupported => Unsupported
  {
    var all := init + [last];
    assert all[..|all| - 1] == init && all[|all| - 1] == last;
  }

  /** A table with holes, as unset leaves them, converts like the same table without them. */
  lemma {:induction false} HolesAreSkipped(heap: Heap, buckets: seq<Bucket>, busy: set<nat>)
    requires HeapOk(heap) && forall k | 0 <= k < |buckets| :: ZvalOk(heap, buckets[k].val)
    ensures forall k | 0 <= k < |WithoutHoles(buckets)| :: ZvalOk(heap, WithoutHoles(buckets)[k].val)
    ensures ConvertBuckets(heap, buckets, busy) == ConvertBuckets(heap, WithoutHoles(buckets), busy)
    decreases |buckets|
  {
    NoHoleIsLeft(heap, buckets);
    if buckets != [] {
      var init, last := buckets[..|buckets| - 1], buckets[|buckets| - 1];
      HolesAreSkipped(heap, init, busy);
      assert buckets == init + [last];
      ConvertOneMore(heap, init, last, busy);
      if last.val.ZUndef? {
        assert WithoutHoles(buckets) == WithoutHoles(init);
      } else {
        ConvertOneMore(heap, WithoutHoles(init), last, busy);
      }
    }
  }

  /** Element k has no later element with the same key. */
  ghost predicate LastOfKey(pairs: seq<Pair>, k: nat) {
    k < |pairs| && forall j | k < j < |pairs| :: pairs[j].key != pairs[k].key
  }

  /** Where keys coincide, as 5 and "5" do, the last value wins, and the order lists the key each time. */
  lemma {:induction false} LastValueWins(pairs: seq<Pair>, k: nat)
    requires LastOfKey(pairs, k)
    ensures pairs[k].key in Entries(pairs) && Entries(pairs)[pairs[k].key] == pairs[k].val
    ensures |Keys(pairs)| == |pairs| && Keys(pairs)[k] == pairs[k].key
  {
    var n := |pairs| - 1;
    if k < n {
      assert LastOfKey(pairs[..n], k) by {
        assert forall j | k < j < n :: pairs[..n][j] == pairs[j];
      }
      LastValueWins(pairs[..n], k);
      assert pairs[n].key != pairs[k].key;
    }
  }

  /* ---------- integer keys ---------- */

  predicate IsDigit(c: char) {
    48 <= c as int <= 57
  }

  /** The number a decimal string stands for. */
  function Number(s: string): nat
    requires forall c | c in s :: IsDigit(c)
  {
    if s == [] then 0 else
    assert s[|s| - 1] in s && IsDigit(s[|s| - 1]);
    10 * Number(s[..|s| - 1]) + (s[|s| - 1] as int - 48)
  }

  /** Digits are the shortest decimal form of a number. */
  lemma {:induction false} DigitsAreDecimal(n: nat)
    ensures var s := Digits(n);
            && s != [] && (forall c | c in s :: IsDigit(c)) && Number(s) == n
            && (s[0] == '0' <==> n == 0) && (n == 0 ==> |s| == 1)
  {
    if n >= 10 {
      DigitsAreDecimal(n / 10);
      var s := Digits(n);
      assert s[..|s| - 1] == Digits(n / 10);
    }
  }

  /** An integer key becomes its decimal form, with a minus sign if negative; a string key stays. */
  lemma KeysAreDecimal(n: int, s: string)
    ensures KeyString(StrKey(s)) == s
    ensures n >= 0 ==> KeyString(IntKey(n)) == Digits(n)
    ensures n < 0 ==> KeyString(IntKey(n)) == ['-'] + Digits(-n)
  {
  }

  /** Different integer keys become different strings. */
  lemma IntegerKeysStayApart(m: int, n: int)
    requires KeyString(IntKey(m)) == KeyString(IntKey(n))
    ensures m == n
  {
    DigitsAreDecimal(if m < 0 then -m else m);
    DigitsAreDecimal(if n < 0 then -n else n);
    SignIsMinus(m);
    SignIsMinus(n);
    if m < 0 {
      assert (['-'] + Digits(-m))[1..] == Digits(-m) && (['-'] + Digits(-n))[1..] == Digits(-n);
    }
  }

  lemma SignIsMinus(n: int)
    ensures KeyString(IntKey(n)) != [] && (KeyString(IntKey(n))[0] == '-' <==> n < 0)
  {
    if n >= 0 {
      DigitsAreDecimal(n);
      assert Digits(n)[0] in Digits(n);
    }
  }

  /* ---------- flags never influence a value ---------- */

  /** A table converts to the same value whatever is being converted around it: each occurrence of a
      shared table yields the same Go value. */
  lemma {:induction false} ValueIgnoresFlags(heap: Heap, z: Zval, few: set<nat>, many: set<nat>)
    requires HeapOk(heap) && ZvalOk(heap, z) && few <= many && Convert(heap, z, many).Ok?
    ensures Convert(heap, z, few) == Convert(heap, z, many)
    decreases Unprotected(heap, many), 0
  {
    var d := Deref(heap, z);
    if d.ZArray? {
      var a := d.table;
      assert CellOk(heap, heap[a]);
      assert a in Unprotected(heap, many) && a !in Unprotected(heap, many + {a});
      BucketsIgnoreFlags(heap, heap[a].buckets, few + {a}, many + {a});
    }
  }

  lemma {:induction false} BucketsIgnoreFlags(heap: Heap, buckets: seq<Bucket>, few: set<nat>, many: set<nat>)
    requires HeapOk(heap) && forall i | 0 <= i < |buckets| :: ZvalOk(heap, buckets[i].val)
    requires few <= many && ConvertBuckets(heap, buckets, many).Ok?
    ensures ConvertBuckets(heap, buckets, few) == ConvertBuckets(heap, buckets, many)
    decreases Unprotected(heap, many), 1 + |buckets|
  {
    if buckets != [] {
      var n := |buckets| - 1;
      BucketsIgnoreFlags(heap, buckets[..n], few, many);
      if !buckets[n].val.ZUndef? {
        ValueIgnoresFlags(heap, buckets[n].val, few, many);
      }
    }
  }
}

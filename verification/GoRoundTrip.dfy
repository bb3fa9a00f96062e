/**
  Building PHP values from Go values (types.go, phpValueInto and the array functions), and what a
  value looks like after going to PHP and back.
 */
module GoRoundTrip {
  import opened GoBridge

  /* ---------- Zend hash operations on a table of the heap ---------- */

  /** zend_hash_next_index_insert into a fresh or packed table. */
  function InsertNext(heap: Heap, p: nat, z: Zval): Heap
    requires p < |heap| && heap[p].Table?
  {
    heap[p := Table(true, heap[p].buckets + [Bucket(IntKey(|heap[p].buckets|), z)])]
  }

  /** The position of a string key, or the number of buckets. */
  function Find(buckets: seq<Bucket>, key: string): (k: nat)
    ensures k <= |buckets| && (k < |buckets| ==> buckets[k].key == StrKey(key))
    ensures forall j | 0 <= j < k :: buckets[j].key != StrKey(key)
  {
    if buckets == [] then 0
    else if buckets[0].key == StrKey(key) then 0
    else 1 + Find(buckets[1..], key)
  }

  /** zend_hash_str_update: replaces the value in place, or appends a bucket. */
  function UpdateStr(heap: Heap, p: nat, key: string, z: Zval): Heap
    requires p < |heap| && heap[p].Table?
  {
    var b := heap[p].buckets;
    var k := Find(b, key);
    heap[p := Table(false, if k < |b| then b[k := Bucket(StrKey(key), z)] else b + [Bucket(StrKey(key), z)])]
  }

  /* ---------- phpValueInto ---------- */

  /** The order in which the runtime happens to iterate over a map; it may differ from one iteration to the
      next, and so depends on the table that is being filled as well. */
  type Iteration = (nat, map<string, GoVal>) -> seq<string>

  ghost predicate Lists(order: seq<string>, entries: map<string, GoVal>) {
    && (forall j, k | 0 <= j < k < |order| :: order[j] != order[k])
    && (forall key :: key in order <==> key in entries)
  }

  /** Every iteration visits each key exactly once. */
  ghost predicate Iterates(it: Iteration) {
    forall p: nat, entries: map<string, GoVal> :: Lists(it(p, entries), entries)
  }

  /** The keys that are written into table p, in this order. */
  function OrderOf(it: Iteration, p: nat, v: GoVal): seq<string>
    requires v.GAssoc?
  {
    if v.order != [] then v.order else it(p, v.entries)
  }

  /** The heap after the value was written, and its zval. A container is created first, then filled. */
  function Build(it: Iteration, heap: Heap, v: GoVal): (r: (Heap, Zval))
    ensures |heap| <= |r.0| && r.0[..|heap|] == heap
    decreases v, if v.GAssoc? then |OrderOf(it, |heap|, v)| + 1 else 0
  {
    match v
    case GNil => (heap, ZNull)
    case GBool(b) => (heap, ZBool(b))
    case GInt(n) => (heap, ZLong(n))
    case GFloat(bits) => (heap, ZDouble(bits))
    case GString(s) => (heap, ZString(s))
    case GSlice(items) => (BuildItems(it, heap + [Table(false, [])], |heap|, items), ZArray(|heap|))
    case GAssoc(_, _) =>
      (BuildEntries(it, heap + [Table(false, [])], |heap|, v, OrderOf(it, |heap|, v)), ZArray(|heap|))
  }

  /** The cells behind p stay as they are when the heap grows and cell p is filled. */
  lemma StillBehind(heap: Heap, h1: Heap, h2: Heap, r: Heap, p: nat)
    requires p < |heap| <= |h1| == |h2| <= |r| && h1[..|heap|] == heap && h2[..p] + h2[p + 1..] == h1[..p] + h1[p + 1..]
    requires r[..p] == h2[..p] && r[p + 1..|h2|] == h2[p + 1..]
    ensures r[..p] == heap[..p] && r[p + 1..|heap|] == heap[p + 1..]
  {
    var both1, both2 := h1[..p] + h1[p + 1..], h2[..p] + h2[p + 1..];
    forall a | 0 <= a < |heap| && a != p
      ensures r[a] == heap[a]
    {
      assert h1[..|heap|][a] == heap[a];
      if a < p {
        assert r[..p][a] == h2[..p][a] && both1[a] == h1[a] && both2[a] == h2[a];
      } else {
        assert r[p + 1..|h2|][a - p - 1] == h2[p + 1..][a - p - 1] && both1[a - 1] == h1[a] && both2[a - 1] == h2[a];
      }
    }
  }

  function BuildItems(it: Iteration, heap: Heap, p: nat, items: seq<GoVal>): (r: Heap)
    requires p < |heap| && heap[p].Table?
    ensures |heap| <= |r| && r[p].Table? && r[..p] == heap[..p] && r[p + 1..|heap|] == heap[p + 1..]
    ensures r[p].packed == (items != [] || heap[p].packed)
    decreases items, |items|
  {
    if items == [] then heap else
    var (h1, z) := Build(it, heap, items[0]);
    assert h1[p] == heap[p];
    var h2 := InsertNext(h1, p, z);
    var r := BuildItems(it, h2, p, items[1..]);
    StillBehind(heap, h1, h2, r, p);
    r
  }

  /** The keys in `order`, looked up in the entries of v. */
  function BuildEntries(it: Iteration, heap: Heap, p: nat, v: GoVal, order: seq<string>): (r: Heap)
    requires p < |heap| && heap[p].Table? && v.GAssoc?
    ensures |heap| <= |r| && r[p].Table? && r[..p] == heap[..p] && r[p + 1..|heap|] == heap[p + 1..]
    ensures r[p].packed == (order == [] && heap[p].packed)
    decreases v, |order|
  {
    if order == [] then heap else
    var (h1, z) := if order[0] in v.entries then Build(it, heap, v.entries[order[0]]) else (heap, ZNull);
    assert h1[p] == heap[p];
    var h2 := UpdateStr(h1, p, order[0], z);
    var r := BuildEntries(it, h2, p, v, order[1..]);
    StillBehind(heap, h1, h2, r, p);
    r
  }

  /* ---------- what comes back ---------- */

  /** The first occurrences, in order. */
  function Distinct(seen: seq<string>, order: seq<string>): seq<string>
    decreases |order|
  {
    if order == [] then seen
    else Distinct(if order[0] in seen then seen else seen + [order[0]], order[1..])
  }

  /** w is what may come back for v: an empty slice as an empty associative array; an associative array
      with exactly the keys its order lists, each once, nil for those without an entry; one without an
      order with its own keys, in any order. */
  ghost predicate Back(v: GoVal, w: GoVal) {
    match v
    case GSlice(items) =>
      if items == [] then w == GAssoc(map[], [])
      else w.GSlice? && |w.items| == |items| && forall k | 0 <= k < |items| :: Back(items[k], w.items[k])
    case GAssoc(entries, order) =>
      && w.GAssoc?
      && (if order == [] then Lists(w.order, entries) else w.order == Distinct([], order))
      && (forall key :: key in w.entries <==> key in w.order)
      && (forall key | key in w.entries ::
            if key in entries then Back(entries[key], w.entries[key]) else w.entries[key] == GNil)
    case _ => w == v
  }

  ghost predicate BackAt(v: GoVal, key: string, w: GoVal)
    requires v.GAssoc?
  {
    if key in v.entries then Back(v.entries[key], w) else w == GNil
  }

  /** g agrees with h on the cells from lo on. */
  ghost predicate Agrees(g: Heap, h: Heap, lo: nat) {
    |h| <= |g| && forall a | lo <= a < |h| :: g[a] == h[a]
  }

  ghost predicate Apart(busy: set<nat>, lo: nat, hi: nat) {
    forall a | a in busy :: !(lo <= a < hi)
  }

  /** zval z, in heap g with these flags, is converted to v. */
  ghost predicate Reads(g: Heap, z: Zval, busy: set<nat>, v: GoVal) {
    HeapOk(g) && ZvalOk(g, z) && Convert(g, z, busy) == Ok(v)
  }

  ghost predicate BucketsRead(g: Heap, buckets: seq<Bucket>, busy: set<nat>, vals: seq<GoVal>) {
    && |buckets| == |vals|
    && forall k | 0 <= k < |buckets| :: !buckets[k].val.ZUndef? && Reads(g, buckets[k].val, busy, vals[k])
  }

  function PairUp(buckets: seq<Bucket>, vals: seq<GoVal>): seq<Pair>
    requires |buckets| == |vals|
  {
    seq(|vals|, k requires 0 <= k < |vals| => Pair(KeyString(buckets[k].key), vals[k]))
  }

  lemma {:induction false} BucketsConvert(g: Heap, buckets: seq<Bucket>, busy: set<nat>, vals: seq<GoVal>)
    requires HeapOk(g) && BucketsRead(g, buckets, busy, vals)
    ensures forall k | 0 <= k < |buckets| :: ZvalOk(g, buckets[k].val)
    ensures ConvertBuckets(g, buckets, busy) == Ok(PairUp(buckets, vals))
  {
    if buckets == [] {
      assert PairUp(buckets, vals) == [];
    } else {
      var n := |buckets| - 1;
      BucketsConvert(g, buckets[..n], busy, vals[..n]);
      assert Reads(g, buckets[n].val, busy, vals[n]);
      assert PairUp(buckets, vals)
          == PairUp(buckets[..n], vals[..n]) + [Pair(KeyString(buckets[n].key), vals[n])];
    }
  }

  lemma {:induction false} SliceReads(g: Heap, p: nat, busy: set<nat>, v: GoVal, ws: seq<GoVal>) returns (w: GoVal)
    requires HeapOk(g) && p < |g| && g[p].Table? && p !in busy && v.GSlice? && g[p].packed == (v.items != [])
    requires BucketsRead(g, g[p].buckets, busy + {p}, ws)
    requires |ws| == |v.items| && forall k | 0 <= k < |ws| :: Back(v.items[k], ws[k])
    ensures Reads(g, ZArray(p), busy, w) && Back(v, w)
  {
    BucketsConvert(g, g[p].buckets, busy + {p}, ws);
    var pairs := PairUp(g[p].buckets, ws);
    assert Values(pairs) == ws;
    if v.items == [] {
      assert pairs == [] && Keys(pairs) == [];
      w := GAssoc(map[], []);
    } else {
      w := GSlice(ws);
    }
  }

  /** Whatever was built reads back, in every heap that keeps the built cells, as something that may come
      back for the value. */
  lemma {:induction false} BuildReads(it: Iteration, heap: Heap, v: GoVal, g: Heap, busy: set<nat>) returns (w: GoVal)
    requires Iterates(it) && HeapOk(g)
    requires Agrees(g, Build(it, heap, v).0, |heap|) && Apart(busy, |heap|, |Build(it, heap, v).0|)
    ensures Reads(g, Build(it, heap, v).1, busy, w) && Back(v, w)
    decreases v, if v.GAssoc? then |OrderOf(it, |heap|, v)| + 1 else 0
  {
    var p := |heap|;
    var h0 := heap + [Table(false, [])];
    match v
    case GSlice(items) =>
      var h := BuildItems(it, h0, p, items);
      assert g[p] == h[p];
      var ws := ItemsRead(it, h0, p, items, g, busy + {p}, []);
      assert [] + ws == ws;
      w := SliceReads(g, p, busy, v, ws);
    case GAssoc(entries, _) =>
      var order := OrderOf(it, p, v);
      var h := BuildEntries(it, h0, p, v, order);
      assert g[p] == h[p];
      var ws := EntriesRead(it, h0, p, v, order, g, busy + {p}, [], []);
      assert v.order == [] ==> Lists(order, entries);
      w := AssocReads(g, p, busy, v, order, ws);
    case _ =>
      w := v;
  }

  lemma {:induction false} ItemsRead(it: Iteration, heap: Heap, p: nat, items: seq<GoVal>,
                                     g: Heap, busy: set<nat>, vals: seq<GoVal>) returns (ws: seq<GoVal>)
    requires p < |heap| && heap[p].Table? && HeapOk(g) && Iterates(it)
    requires Agrees(g, BuildItems(it, heap, p, items), |heap|) && Apart(busy, |heap|, |BuildItems(it, heap, p, items)|)
    requires BucketsRead(g, heap[p].buckets, busy, vals)
    ensures BucketsRead(g, BuildItems(it, heap, p, items)[p].buckets, busy, vals + ws)
    ensures |ws| == |items| && forall k | 0 <= k < |ws| :: Back(items[k], ws[k])
    decreases items, |items|
  {
    if items == [] {
      ws := [];
      assert vals + ws == vals;
    } else {
      var (h1, z) := Build(it, heap, items[0]);
      assert h1[p] == heap[p];
      var h2 := InsertNext(h1, p, z);
      var rest := items[1..];
      KeptCells(g, heap, h1, h2, BuildItems(it, h2, p, rest), p);
      var w := BuildReads(it, heap, items[0], g, busy);
      assert BucketsRead(g, h2[p].buckets, busy, vals + [w]);
      ws := ItemsRead(it, h2, p, rest, g, busy, vals + [w]);
      assert vals + [w] + ws == vals + ([w] + ws);
      ws := [w] + ws;
    }
  }

  /** What g keeps of the finished heap, it keeps of the heap before cell p was filled further. */
  lemma KeptCells(g: Heap, heap: Heap, h1: Heap, h2: Heap, h: Heap, p: nat)
    requires p < |heap| <= |h1| == |h2| <= |h| && h2 == h1[p := h2[p]]
    requires h[p + 1..|h2|] == h2[p + 1..] && Agrees(g, h, |heap|)
    ensures Agrees(g, h1, |heap|) && Agrees(g, h, |h2|)
  {
    forall a | |heap| <= a < |h1|
      ensures g[a] == h1[a]
    {
      assert h[p + 1..|h2|][a - p - 1] == h2[p + 1..][a - p - 1];
    }
  }

  ghost predicate EntryOk(g: Heap, b: Bucket, busy: set<nat>, v: GoVal, key: string, w: GoVal)
    requires v.GAssoc?
  {
    b.key == StrKey(key) && !b.val.ZUndef? && Reads(g, b.val, busy, w) && BackAt(v, key, w)
  }

  /** The buckets hold the keys `seen`, in order, with values that may come back for them. */
  ghost predicate EntriesOk(g: Heap, buckets: seq<Bucket>, busy: set<nat>, v: GoVal, seen: seq<string>, ws: seq<GoVal>)
    requires v.GAssoc?
  {
    |buckets| == |seen| == |ws| && forall k | 0 <= k < |buckets| :: EntryOk(g, buckets[k], busy, v, seen[k], ws[k])
  }

  /** One key more, or one value replaced. */
  lemma {:induction false} UpdateEntries(g: Heap, buckets: seq<Bucket>, k: nat, b: Bucket, busy: set<nat>, v: GoVal,
                                         seen: seq<string>, ws: seq<GoVal>, key: string, w: GoVal)
    requires v.GAssoc? && EntriesOk(g, buckets, busy, v, seen, ws) && EntryOk(g, b, busy, v, key, w)
    requires k == Find(buckets, key)
    ensures k < |seen| ==> seen[k] == key && EntriesOk(g, buckets[k := b], busy, v, seen, ws[k := w])
    ensures k == |seen| ==> key !in seen && EntriesOk(g, buckets + [b], busy, v, seen + [key], ws + [w])
  {
    if k < |seen| {
      assert EntryOk(g, buckets[k], busy, v, seen[k], ws[k]);
    } else {
      forall j | 0 <= j < |seen|
        ensures seen[j] != key
      {
        assert EntryOk(g, buckets[j], busy, v, seen[j], ws[j]);
      }
    }
  }

  lemma {:induction false} EntriesRead(it: Iteration, heap: Heap, p: nat, v: GoVal, order: seq<string>,
                                       g: Heap, busy: set<nat>, seen: seq<string>, ws: seq<GoVal>)
    returns (ws': seq<GoVal>)
    requires p < |heap| && heap[p].Table? && v.GAssoc? && HeapOk(g) && Iterates(it)
    requires Agrees(g, BuildEntries(it, heap, p, v, order), |heap|)
    requires Apart(busy, |heap|, |BuildEntries(it, heap, p, v, order)|)
    requires EntriesOk(g, heap[p].buckets, busy, v, seen, ws)
    ensures EntriesOk(g, BuildEntries(it, heap, p, v, order)[p].buckets, busy, v, Distinct(seen, order), ws')
    decreases v, |order|
  {
    if order == [] {
      ws' := ws;
    } else {
      var key := order[0];
      var (h1, z) := if key in v.entries then Build(it, heap, v.entries[key]) else (heap, ZNull);
      assert h1[p] == heap[p];
      var h2 := UpdateStr(h1, p, key, z);
      KeptCells(g, heap, h1, h2, BuildEntries(it, h2, p, v, order[1..]), p);
      var w := GNil;
      if key in v.entries {
        w := BuildReads(it, heap, v.entries[key], g, busy);
      }
      var k := Find(h1[p].buckets, key);
      UpdateEntries(g, h1[p].buckets, k, Bucket(StrKey(key), z), busy, v, seen, ws, key, w);
      if k < |seen| {
        ws' := EntriesRead(it, h2, p, v, order[1..], g, busy, seen, ws[k := w]);
      } else {
        ws' := EntriesRead(it, h2, p, v, order[1..], g, busy, seen + [key], ws + [w]);
      }
    }
  }

  lemma {:induction false} DistinctElements(seen: seq<string>, order: seq<string>)
    ensures forall key :: key in Distinct(seen, order) <==> key in seen || key in order
    ensures (forall j, k | 0 <= j < k < |seen| :: seen[j] != seen[k])
            ==> forall j, k | 0 <= j < k < |Distinct(seen, order)| :: Distinct(seen, order)[j] != Distinct(seen, order)[k]
    decreases |order|
  {
    if order != [] {
      DistinctElements(if order[0] in seen then seen else seen + [order[0]], order[1..]);
    }
  }

  /** With distinct keys, the entries of pairs are those pairs. */
  lemma {:induction false} EntriesOfPairs(pairs: seq<Pair>)
    requires forall j, k | 0 <= j < k < |pairs| :: pairs[j].key != pairs[k].key
    ensures forall key :: key in Entries(pairs) <==> key in Keys(pairs)
    ensures forall k | 0 <= k < |pairs| :: pairs[k].key in Entries(pairs) && Entries(pairs)[pairs[k].key] == pairs[k].val
  {
    if pairs != [] {
      var n := |pairs| - 1;
      var init := pairs[..n];
      EntriesOfPairs(init);
      assert Keys(pairs) == Keys(init) + [pairs[n].key];
      assert forall k | 0 <= k < n :: init[k] == pairs[k];
    }
  }

  /** Pairs with the keys an order lists, and values that may come back for them, make an associative
      array that may come back. */
  lemma {:induction false} AssocPairs(pairs: seq<Pair>, v: GoVal, order: seq<string>)
    requires v.GAssoc? && (if v.order == [] then Lists(order, v.entries) else order == v.order)
    requires Keys(pairs) == Distinct([], order) && forall k | 0 <= k < |pairs| :: BackAt(v, pairs[k].key, pairs[k].val)
    ensures Back(v, GAssoc(Entries(pairs), Keys(pairs)))
  {
    var keys := Keys(pairs);
    DistinctElements([], order);
    if v.order == [] {
      assert [] + order == order;
      DistinctUnchanged([], order);
    }
    assert forall k | 0 <= k < |pairs| :: keys[k] == pairs[k].key;
    EntriesOfPairs(pairs);
    forall key | key in Entries(pairs)
      ensures BackAt(v, key, Entries(pairs)[key])
    {
      PairOfKey(pairs, v, key);
    }
  }

  lemma PairOfKey(pairs: seq<Pair>, v: GoVal, key: string)
    requires v.GAssoc? && forall j, k | 0 <= j < k < |pairs| :: pairs[j].key != pairs[k].key
    requires (forall k | 0 <= k < |pairs| :: BackAt(v, pairs[k].key, pairs[k].val)) && key in Entries(pairs)
    ensures BackAt(v, key, Entries(pairs)[key])
  {
    EntriesOfPairs(pairs);
    var k :| 0 <= k < |Keys(pairs)| && Keys(pairs)[k] == key;
    assert BackAt(v, pairs[k].key, pairs[k].val);
  }

  lemma {:induction false} AssocReads(g: Heap, p: nat, busy: set<nat>, v: GoVal, order: seq<string>, ws: seq<GoVal>)
    returns (w: GoVal)
    requires HeapOk(g) && p < |g| && g[p].Table? && !g[p].packed && p !in busy && v.GAssoc?
    requires if v.order == [] then Lists(order, v.entries) else order == v.order
    requires EntriesOk(g, g[p].buckets, busy + {p}, v, Distinct([], order), ws)
    ensures Reads(g, ZArray(p), busy, w) && Back(v, w)
  {
    var seen := Distinct([], order);
    forall k | 0 <= k < |ws|
      ensures Reads(g, g[p].buckets[k].val, busy + {p}, ws[k]) && g[p].buckets[k].key == StrKey(seen[k])
      ensures !g[p].buckets[k].val.ZUndef? && BackAt(v, seen[k], ws[k])
    {
      assert EntryOk(g, g[p].buckets[k], busy + {p}, v, seen[k], ws[k]);
    }
    BucketsConvert(g, g[p].buckets, busy + {p}, ws);
    var pairs := PairUp(g[p].buckets, ws);
    assert forall k | 0 <= k < |pairs| :: pairs[k].key == seen[k] && pairs[k].val == ws[k];
    assert Keys(pairs) == seen;
    forall k | 0 <= k < |pairs|
      ensures BackAt(v, pairs[k].key, pairs[k].val)
    {
      assert BackAt(v, seen[k], ws[k]);
    }
    AssocPairs(pairs, v, order);
    w := GAssoc(Entries(pairs), Keys(pairs));
  }

  /* ---------- building keeps the heap well-formed ---------- */

  lemma {:induction false} BuildOk(it: Iteration, heap: Heap, v: GoVal)
    requires HeapOk(heap)
    ensures HeapOk(Build(it, heap, v).0) && ZvalOk(Build(it, heap, v).0, Build(it, heap, v).1)
    decreases v, if v.GAssoc? then |OrderOf(it, |heap|, v)| + 1 else 0
  {
    var h0 := heap + [Table(false, [])];
    assert HeapOk(h0) by { GrowOk(heap, h0); }
    match v
    case GSlice(items) => BuildItemsOk(it, h0, |heap|, items);
    case GAssoc(_, _) => BuildEntriesOk(it, h0, |heap|, v, OrderOf(it, |heap|, v));
    case _ =>
  }

  lemma GrowOk(heap: Heap, h: Heap)
    requires HeapOk(heap) && h == heap + [Table(false, [])]
    ensures HeapOk(h)
  {
    forall a | 0 <= a < |h|
      ensures CellOk(h, h[a])
    {
      if a < |heap| { assert CellOk(heap, heap[a]); }
    }
  }

  lemma FillOk(heap: Heap, p: nat, cell: Cell)
    requires HeapOk(heap) && p < |heap| && heap[p].Table? && cell.Table?
    requires forall k | 0 <= k < |cell.buckets| :: ZvalOk(heap, cell.buckets[k].val)
    ensures HeapOk(heap[p := cell])
  {
    var h := heap[p := cell];
    forall a | 0 <= a < |h|
      ensures CellOk(h, h[a])
    {
      assert CellOk(heap, heap[a]);
    }
  }

  lemma {:induction false} BuildItemsOk(it: Iteration, heap: Heap, p: nat, items: seq<GoVal>)
    requires HeapOk(heap) && p < |heap| && heap[p].Table?
    ensures HeapOk(BuildItems(it, heap, p, items))
    decreases items, |items|
  {
    if items != [] {
      BuildOk(it, heap, items[0]);
      var (h1, z) := Build(it, heap, items[0]);
      assert h1[p] == heap[p] && CellOk(h1, h1[p]);
      FillOk(h1, p, InsertNext(h1, p, z)[p]);
      BuildItemsOk(it, InsertNext(h1, p, z), p, items[1..]);
    }
  }

  lemma {:induction false} BuildEntriesOk(it: Iteration, heap: Heap, p: nat, v: GoVal, order: seq<string>)
    requires HeapOk(heap) && p < |heap| && heap[p].Table? && v.GAssoc?
    ensures HeapOk(BuildEntries(it, heap, p, v, order))
    decreases v, |order|
  {
    if order != [] {
      if order[0] in v.entries { BuildOk(it, heap, v.entries[order[0]]); }
      var (h1, z) := if order[0] in v.entries then Build(it, heap, v.entries[order[0]]) else (heap, ZNull);
      assert h1[p] == heap[p] && CellOk(h1, h1[p]);
      FillOk(h1, p, UpdateStr(h1, p, order[0], z)[p]);
      BuildEntriesOk(it, UpdateStr(h1, p, order[0], z), p, v, order[1..]);
    }
  }

  /* ---------- the keys PHP sees ---------- */

  ghost predicate Counted(buckets: seq<Bucket>) {
    forall k | 0 <= k < |buckets| :: buckets[k].key == IntKey(k)
  }

  lemma {:induction false} ItemsAreCounted(it: Iteration, heap: Heap, p: nat, items: seq<GoVal>)
    requires p < |heap| && heap[p].Table? && Counted(heap[p].buckets)
    ensures var b := BuildItems(it, heap, p, items)[p].buckets; Counted(b) && |b| == |heap[p].buckets| + |items|
    decreases items, |items|
  {
    if items != [] {
      var (h1, z) := Build(it, heap, items[0]);
      assert h1[p] == heap[p];
      ItemsAreCounted(it, InsertNext(h1, p, z), p, items[1..]);
    }
  }

  ghost predicate Keyed(buckets: seq<Bucket>, keys: seq<string>) {
    |buckets| == |keys| && forall k | 0 <= k < |buckets| :: buckets[k].key == StrKey(keys[k])
  }

  lemma KeyedUpdate(heap: Heap, p: nat, key: string, z: Zval, seen: seq<string>)
    requires p < |heap| && heap[p].Table? && Keyed(heap[p].buckets, seen)
    ensures Keyed(UpdateStr(heap, p, key, z)[p].buckets, if key in seen then seen else seen + [key])
  {
    var b := heap[p].buckets;
    var k := Find(b, key);
    if k < |b| {
      assert b[k].key == StrKey(seen[k]);
    } else {
      assert forall j | 0 <= j < |seen| :: b[j].key == StrKey(seen[j]);
    }
  }

  lemma {:induction false} EntriesAreKeyed(it: Iteration, heap: Heap, p: nat, v: GoVal, order: seq<string>, seen: seq<string>)
    requires p < |heap| && heap[p].Table? && v.GAssoc? && Keyed(heap[p].buckets, seen)
    ensures Keyed(BuildEntries(it, heap, p, v, order)[p].buckets, Distinct(seen, order))
    decreases v, |order|
  {
    if order != [] {
      var key := order[0];
      var (h1, z) := if key in v.entries then Build(it, heap, v.entries[key]) else (heap, ZNull);
      assert h1[p] == heap[p];
      KeyedUpdate(h1, p, key, z, seen);
      EntriesAreKeyed(it, UpdateStr(h1, p, key, z), p, v, order[1..], if key in seen then seen else seen + [key]);
    }
  }

  /** A slice becomes a table with the keys 0, 1, 2, ...; an associative array one with its own keys as
      strings, also where they look like numbers, in the order they are first listed. */
  lemma BuiltKeys(it: Iteration, heap: Heap, v: GoVal)
    requires v.GSlice? || v.GAssoc?
    ensures var (h, z) := Build(it, heap, v);
            && z == ZArray(|heap|) && |heap| < |h| && h[|heap|].Table?
            && (v.GSlice? ==> Counted(h[|heap|].buckets) && |h[|heap|].buckets| == |v.items|)
            && (v.GAssoc? ==> Keyed(h[|heap|].buckets, Distinct([], OrderOf(it, |heap|, v))))
  {
    var h0 := heap + [Table(false, [])];
    if v.GSlice? {
      ItemsAreCounted(it, h0, |heap|, v.items);
    } else {
      EntriesAreKeyed(it, h0, |heap|, v, OrderOf(it, |heap|, v), []);
    }
  }

  /* ---------- the round trip ---------- */

  /** Going to PHP and back yields a value that may come back, whatever else the heap holds and in
      whatever order maps are iterated. */
  lemma RoundTrip(it: Iteration, heap: Heap, v: GoVal) returns (w: GoVal)
    requires Iterates(it) && HeapOk(heap)
    ensures Reads(Build(it, heap, v).0, Build(it, heap, v).1, {}, w) && Back(v, w)
  {
    BuildOk(it, heap, v);
    w := BuildReads(it, heap, v, Build(it, heap, v).0, {});
  }

  /** No empty slice anywhere, and every order lists each key of its map exactly once. */
  ghost predicate Faithful(v: GoVal) {
    match v
    case GSlice(items) => items != [] && forall k | 0 <= k < |items| :: Faithful(items[k])
    case GAssoc(entries, order) => Lists(order, entries) && forall key | key in entries :: Faithful(entries[key])
    case _ => true
  }

  lemma {:induction false} DistinctUnchanged(seen: seq<string>, order: seq<string>)
    requires forall j, k | 0 <= j < k < |seen + order| :: (seen + order)[j] != (seen + order)[k]
    ensures Distinct(seen, order) == seen + order
    decreases |order|
  {
    if order != [] {
      var all := seen + order;
      assert order[0] !in seen by {
        assert all[|seen|] == order[0];
        assert forall k | 0 <= k < |seen| :: all[k] == seen[k];
      }
      assert seen + [order[0]] + order[1..] == all;
      DistinctUnchanged(seen + [order[0]], order[1..]);
    }
  }

  /** Only a faithful value may come back as itself. */
  lemma {:induction false} SelfIsFaithful(v: GoVal)
    requires Back(v, v)
    ensures Faithful(v)
  {
    match v
    case GSlice(items) =>
      forall k | 0 <= k < |items| ensures Faithful(items[k]) { SelfIsFaithful(items[k]); }
    case GAssoc(entries, order) =>
      DistinctElements([], order);
      forall key | key in entries ensures Faithful(entries[key]) { SelfIsFaithful(entries[key]); }
    case _ =>
  }

  lemma NothingListed(order: seq<string>, entries: map<string, GoVal>)
    requires Lists(order, entries)
    ensures order == [] <==> entries == map[]
  {
    if order != [] {
      assert order[0] in entries;
    } else {
      assert forall key :: key !in entries;
    }
  }

  /** A faithful value comes back as nothing but itself. */
  lemma {:induction false} FaithfulIsSelf(v: GoVal, w: GoVal)
    requires Faithful(v) && Back(v, w)
    ensures w == v
  {
    match v
    case GSlice(items) =>
      forall k | 0 <= k < |items| ensures w.items[k] == items[k] { FaithfulIsSelf(items[k], w.items[k]); }
      assert w.items == items;
    case GAssoc(entries, order) =>
      assert [] + order == order;
      DistinctUnchanged([], order);
      NothingListed(order, entries);
      if order == [] { NothingListed(w.order, entries); }
      forall key | key in entries
        ensures key in w.entries && w.entries[key] == entries[key]
      {
        FaithfulIsSelf(entries[key], w.entries[key]);
      }
      assert w.entries == entries;
    case _ =>
  }

  /** Every map with entries has an order: nothing is left to the runtime. */
  predicate Ordered(v: GoVal) {
    match v
    case GSlice(items) => forall k | 0 <= k < |items| :: Ordered(items[k])
    case GAssoc(entries, order) => (order == [] ==> entries == map[]) && forall key | key in entries :: Ordered(entries[key])
    case _ => true
  }

  /** What comes back for an ordered value is determined by the value. */
  lemma {:induction false} OrderedComesBackAsOne(v: GoVal, w: GoVal, w': GoVal)
    requires Ordered(v) && Back(v, w) && Back(v, w')
    ensures w == w'
  {
    match v
    case GSlice(items) =>
      if items != [] {
        forall k | 0 <= k < |items| ensures w.items[k] == w'.items[k] {
          OrderedComesBackAsOne(items[k], w.items[k], w'.items[k]);
        }
        assert w.items == w'.items;
      }
    case GAssoc(entries, order) =>
      if order == [] {
        NothingListed(w.order, entries);
        NothingListed(w'.order, entries);
      }
      forall key | key in w.entries
        ensures key in w'.entries && w.entries[key] == w'.entries[key]
      {
        assert key in w'.order;
        if key in entries { OrderedComesBackAsOne(entries[key], w.entries[key], w'.entries[key]); }
      }
      assert w.entries == w'.entries;
    case _ =>
  }

  /** goValue(phpValue(v)) == v, key order included, exactly for the faithful values, in whatever order
      maps are iterated. */
  lemma RoundTripIsIdentityIff(it: Iteration, heap: Heap, v: GoVal)
    requires Iterates(it) && HeapOk(heap)
    ensures Reads(Build(it, heap, v).0, Build(it, heap, v).1, {}, v) <==> Faithful(v)
  {
    var w := RoundTrip(it, heap, v);
    if Faithful(v) { FaithfulIsSelf(v, w); }
    if w == v { SelfIsFaithful(v); }
  }

  /** One family that does not survive: an empty slice comes back as an associative array. */
  lemma EmptySliceComesBackAsMap(it: Iteration, heap: Heap)
    requires Iterates(it) && HeapOk(heap)
    ensures Reads(Build(it, heap, GSlice([])).0, Build(it, heap, GSlice([])).1, {}, GAssoc(map[], []))
  {
    var w := RoundTrip(it, heap, GSlice([]));
  }

  /** Another: a map without an order comes back with the same keys, and an order. */
  lemma UnorderedMapComesBackOrdered(it: Iteration, heap: Heap, entries: map<string, GoVal>)
    returns (w: GoVal)
    requires Iterates(it) && HeapOk(heap)
    ensures var v := GAssoc(entries, []);
            Reads(Build(it, heap, v).0, Build(it, heap, v).1, {}, w) && w.GAssoc? && Lists(w.order, entries)
            && forall key | key in entries :: key in w.entries && Back(entries[key], w.entries[key])
  {
    w := RoundTrip(it, heap, GAssoc(entries, []));
  }

  /* ---------- the code: tables are created, then filled in place ---------- */

  class Builder {
    var heap: Heap
    const it: Iteration

    constructor (heap: Heap, it: Iteration)
      ensures this.heap == heap && this.it == it
    {
      this.heap := heap;
      this.it := it;
    }

    method PhpValue(v: GoVal) returns (z: Zval)
      modifies this
      ensures (heap, z) == Build(it, old(heap), v)
      decreases v, 2
    {
      match v
      case GNil => z := ZNull;
      case GBool(b) => z := ZBool(b);
      case GInt(n) => z := ZLong(n);
      case GFloat(bits) => z := ZDouble(bits);
      case GString(s) => z := ZString(s);
      case GSlice(_) => z := PhpPackedArray(v);
      case GAssoc(_, _) => z := PhpArray(v);
    }

    method PhpPackedArray(v: GoVal) returns (z: Zval)
      requires v.GSlice?
      modifies this
      ensures (heap, z) == Build(it, old(heap), v)
      decreases v, 1
    {
      var p := |heap|;
      heap := heap + [Table(false, [])];
      ghost var target := BuildItems(it, heap, p, v.items);
      for i := 0 to |v.items|
        invariant p < |heap| && heap[p].Table?
        invariant BuildItems(it, heap, p, v.items[i..]) == target
      {
        ghost var before := heap;
        var item := PhpValue(v.items[i]);
        assert heap[p] == before[p];
        assert v.items[i..][1..] == v.items[i + 1..];
        heap := InsertNext(heap, p, item);
      }
      z := ZArray(p);
    }

    /** Both loops of phpArray: over the given order, or over the map as the runtime iterates it. */
    method PhpArray(v: GoVal) returns (z: Zval)
      requires v.GAssoc?
      modifies this
      ensures (heap, z) == Build(it, old(heap), v)
      decreases v, 1
    {
      var p := |heap|;
      heap := heap + [Table(false, [])];
      var order := if |v.order| != 0 then v.order else it(p, v.entries);
      ghost var target := BuildEntries(it, heap, p, v, order);
      for i := 0 to |order|
        invariant p < |heap| && heap[p].Table?
        invariant BuildEntries(it, heap, p, v, order[i..]) == target
      {
        ghost var before := heap;
        var key := order[i];
        var item := ZNull;
        if key in v.entries {
          item := PhpValue(v.entries[key]);
        }
        assert heap[p] == before[p];
        assert order[i..][1..] == order[i + 1..];
        heap := UpdateStr(heap, p, key, item);
      }
      z := ZArray(p);
    }
  }
}

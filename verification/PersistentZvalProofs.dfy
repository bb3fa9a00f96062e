/** Copying in and out is the identity; freeing gives back exactly what was allocated. */
module PersistentZvalProofs {
  import opened Options
  import opened PersistentZval

  /* ---------- round trip ---------- */

  /** Every enum case in the copied part of z can be resolved. */
  predicate Resolvable(z: Val, cases: Cases) {
    match z
    case Enum(c, e) => (c.bytes, e.bytes) in cases
    case Array(immutable, items) => immutable || forall k | 0 <= k < |items| :: Resolvable(items[k].val, cases)
    case _ => true
  }

  /** A class and case name stand for one enum case. */
  predicate Coherent(z: Val, cases: Cases) {
    match z
    case Enum(c, e) => (c.bytes, e.bytes) in cases ==> cases[(c.bytes, e.bytes)] == z
    case Array(immutable, items) => immutable || forall k | 0 <= k < |items| :: Coherent(items[k].val, cases)
    case _ => true
  }

  lemma StrRoundTrip(h: Heap, s: Str)
    ensures StrToRequest(PersistStr(h, s).1) == s && PersistStr(h, s).1.bytes == s.bytes
  {
  }

  lemma KeyRoundTrip(h: Heap, k: Key)
    ensures KeyToRequest(PersistKey(h, k).1) == k
  {
    if k.StrKey? { StrRoundTrip(h, k.s); }
  }

  /** Restoring a persisted value throws exactly when one of its enum cases cannot be resolved, and
      otherwise yields the value that was persisted. */
  lemma {:induction false} RoundTrip(h: Heap, z: Val, cases: Cases)
    requires Supported(z) && Coherent(z, cases)
    ensures ToRequest(Persist(h, z).1, cases).thrown <==> !Resolvable(z, cases)
    ensures Resolvable(z, cases) ==> ToRequest(Persist(h, z).1, cases) == Restored(z, false)
    decreases z, 1
  {
    match z
    case Array(immutable, items) =>
      if !immutable {
        var (h1, a) := Alloc(h);
        ItemsRoundTrip(h1, items, cases);
      }
    case _ =>
  }

  /** Restoring one more item: it is reached only if nothing was thrown before. */
  lemma RestoreOneMore(ps: seq<PItem>, p: PItem, cases: Cases)
    ensures var (vals, thrown) := ItemsToRequest(ps, cases);
            var r := ToRequest(p.val, cases);
            ItemsToRequest(ps + [p], cases)
            == if thrown || r.thrown then (vals, true) else (vals + [Item(KeyToRequest(p.key), r.val)], false)
  {
    var all := ps + [p];
    assert all[..|all| - 1] == ps;
  }

  lemma UnresolvableLast(items: seq<Item>, cases: Cases)
    requires items != []
    ensures var n := |items| - 1;
            (exists k | 0 <= k < |items| :: !Resolvable(items[k].val, cases))
            <==> !Resolvable(items[n].val, cases) || exists k | 0 <= k < n :: !Resolvable(items[..n][k].val, cases)
  {
    var n := |items| - 1;
    var init := items[..n];
    if k :| 0 <= k < |items| && !Resolvable(items[k].val, cases) {
      if k < n { assert init[k] == items[k]; }
    }
    if k :| 0 <= k < n && !Resolvable(init[k].val, cases) {
      assert items[k] == init[k];
    }
  }

  /** Restoring the items throws exactly if one of them cannot be resolved, and else gives them back. */
  ghost predicate Restores(r: (seq<Item>, bool), items: seq<Item>, cases: Cases) {
    (r.1 <==> exists k | 0 <= k < |items| :: !Resolvable(items[k].val, cases)) && (!r.1 ==> r.0 == items)
  }

  lemma RestoresOneMore(r: (seq<Item>, bool), init: seq<Item>, item: Item, one: Restored, cases: Cases)
    requires Restores(r, init, cases)
    requires one.thrown <==> !Resolvable(item.val, cases)
    requires !one.thrown ==> one.val == item.val
    ensures Restores(if r.1 || one.thrown then (r.0, true) else (r.0 + [Item(item.key, one.val)], false), init + [item], cases)
  {
    var items := init + [item];
    assert items[..|items| - 1] == init;
    UnresolvableLast(items, cases);
  }

  lemma {:induction false} ItemsRoundTrip(h: Heap, items: seq<Item>, cases: Cases)
    requires forall k | 0 <= k < |items| :: Supported(items[k].val) && Coherent(items[k].val, cases)
    ensures Restores(ItemsToRequest(PersistItems(h, items).1, cases), items, cases)
    decreases items, 0
  {
    if items != [] {
      var n := |items| - 1;
      var item, init := items[n], items[..n];
      assert (item decreases to item.val);
      ItemsRoundTrip(h, init, cases);
      var (h1, ps) := PersistItems(h, init);
      RoundTrip(h1, item.val, cases);
      var (h2, v) := Persist(h1, item.val);
      KeyRoundTrip(h2, item.key);
      var p := PItem(PersistKey(h2, item.key).1, v);
      assert PersistItems(h, items).1 == ps + [p];
      RestoreOneMore(ps, p, cases);
      RestoresOneMore(ItemsToRequest(ps, cases), init, item, ToRequest(v, cases), cases);
      assert items == init + [item];
    }
  }

  ghost predicate StopsAt(vals: seq<Item>, items: seq<Item>, cases: Cases) {
    |vals| < |items| && vals == items[..|vals|] && !Resolvable(items[|vals|].val, cases)
  }

  lemma {:induction false} ItemsStop(h: Heap, items: seq<Item>, cases: Cases)
    requires forall k | 0 <= k < |items| :: Supported(items[k].val) && Coherent(items[k].val, cases)
    requires ItemsToRequest(PersistItems(h, items).1, cases).1
    ensures StopsAt(ItemsToRequest(PersistItems(h, items).1, cases).0, items, cases)
    decreases |items|
  {
    var n := |items| - 1;
    var item, init := items[n], items[..n];
    var (h1, ps) := PersistItems(h, init);
    var (h2, v) := Persist(h1, item.val);
    var p := PItem(PersistKey(h2, item.key).1, v);
    assert PersistItems(h, items).1 == ps + [p];
    RestoreOneMore(ps, p, cases);
    var (vals, thrown) := ItemsToRequest(ps, cases);
    if thrown {
      ItemsStop(h, init, cases);
      assert init[..|vals|] == items[..|vals|];
    } else {
      ItemsRoundTrip(h, init, cases);
      RoundTrip(h1, item.val, cases);
    }
  }

  /** A restored array that throws holds the items in front of the first one that cannot be resolved. */
  lemma PartialRestore(h: Heap, items: seq<Item>, cases: Cases)
    requires Supported(Array(false, items)) && Coherent(Array(false, items), cases) && !Resolvable(Array(false, items), cases)
    ensures var r := ToRequest(Persist(h, Array(false, items)).1, cases);
            r.thrown && r.val.Array? && !r.val.immutable && StopsAt(r.val.items, items, cases)
  {
    var (h1, a) := Alloc(h);
    ItemsRoundTrip(h1, items, cases);
    ItemsStop(h1, items, cases);
  }

  /* ---------- freeing ---------- */

  function CellOf(a: Address): seq<nat> {
    if a.Cell? then [a.n] else []
  }

  function KeyCells(k: PKey): seq<nat> {
    if k.PStrKey? then CellOf(k.s.at) else []
  }

  /** The cells a persistent value owns, in the order they are freed. */
  function Owned(p: PVal): seq<nat>
    decreases p, 1
  {
    match p
    case PString(s) => CellOf(s.at)
    case PEnum(a, c, e) => CellOf(c.at) + CellOf(e.at) + CellOf(a)
    case PArray(a, items) => OwnedVals(items) + OwnedKeys(items) + CellOf(a)
    case _ => []
  }

  function OwnedVals(items: seq<PItem>): seq<nat>
    decreases items, 0
  {
    if items == [] then [] else
    var item := items[|items| - 1];
    assert (item decreases to item.val);
    OwnedVals(items[..|items| - 1]) + Owned(item.val)
  }

  function OwnedKeys(items: seq<PItem>): seq<nat> {
    if items == [] then [] else OwnedKeys(items[..|items| - 1]) + KeyCells(items[|items| - 1].key)
  }

  /** Containers are never static. */
  predicate Proper(p: PVal)
    decreases p
  {
    match p
    case PEnum(a, _, _) => a.Cell?
    case PArray(a, items) => a.Cell? && forall k | 0 <= k < |items| :: Proper(items[k].val)
    case _ => true
  }

  ghost predicate Distinct(s: seq<nat>) {
    forall j, k | 0 <= j < k < |s| :: s[j] != s[k]
  }

  /** All of these cells are live with one reference. */
  ghost predicate Holds(h: Heap, cells: seq<nat>) {
    forall c | c in cells :: c in h.live && h.live[c] == 1
  }

  function Without(h: Heap, cells: seq<nat>): Heap {
    h.(live := h.live - (set c | c in cells), freed := h.freed + cells)
  }

  lemma SplitDistinct(a: seq<nat>, b: seq<nat>)
    requires Distinct(a + b)
    ensures Distinct(a) && Distinct(b) && forall c | c in a :: c !in b
  {
    var s := a + b;
    forall j, k | 0 <= j < k < |a| ensures a[j] != a[k] { assert s[j] == a[j] && s[k] == a[k]; }
    forall j, k | 0 <= j < k < |b| ensures b[j] != b[k] { assert s[|a| + j] == b[j] && s[|a| + k] == b[k]; }
    forall j, k | 0 <= j < |a| && 0 <= k < |b| ensures a[j] != b[k] { assert s[j] == a[j] && s[|a| + k] == b[k]; }
  }

  lemma WithoutNone(h: Heap)
    ensures Without(h, []) == h
  {
    var none: seq<nat> := [];
    assert h.live - (set c | c in none) == h.live;
    assert h.freed + none == h.freed;
  }

  lemma WithoutOne(h: Heap, n: nat)
    ensures Without(h, [n]) == h.(live := h.live - {n}, freed := h.freed + [n])
  {
    assert (set c | c in [n]) == {n};
  }

  lemma WithoutTwice(h: Heap, a: seq<nat>, b: seq<nat>)
    requires Distinct(a + b) && Holds(h, a + b)
    ensures Distinct(a) && Distinct(b) && Holds(h, a) && Holds(Without(h, a), b)
    ensures Without(Without(h, a), b) == Without(h, a + b)
  {
    SplitDistinct(a, b);
    assert forall c | c in a :: c in a + b;
    assert forall c | c in b :: c in a + b;
    assert h.freed + a + b == h.freed + (a + b);
    assert h.live - (set c | c in a) - (set c | c in b) == h.live - (set c | c in a + b);
  }

  lemma FreeStrSpec(h: Heap, s: PStr)
    requires Holds(h, CellOf(s.at))
    ensures FreeStr(h, s) == Some(Without(h, CellOf(s.at)))
  {
    if s.at.Cell? { WithoutOne(h, s.at.n); } else { WithoutNone(h); }
  }

  lemma FreeCellSpec(h: Heap, a: Address)
    requires a.Cell? && Holds(h, CellOf(a))
    ensures FreeCell(h, a) == Some(Without(h, CellOf(a)))
  {
    WithoutOne(h, a.n);
  }

  lemma ReleaseKeySpec(h: Heap, k: PKey)
    requires Holds(h, KeyCells(k))
    ensures ReleaseKey(h, k) == Some(Without(h, KeyCells(k)))
  {
    if k.PStrKey? && k.s.at.Cell? { WithoutOne(h, k.s.at.n); } else { WithoutNone(h); }
  }

  /** Freeing a value whose cells are live with one reference each frees exactly those cells, each
      once, and touches nothing else. */
  lemma {:induction false} FreeSpec(h: Heap, p: PVal)
    requires Proper(p) && Distinct(Owned(p)) && Holds(h, Owned(p))
    ensures Free(h, p) == Some(Without(h, Owned(p)))
    decreases p, 1
  {
    match p
    case PString(s) => FreeStrSpec(h, s);
    case PEnum(a, c, e) =>
      WithoutTwice(h, CellOf(c.at) + CellOf(e.at), CellOf(a));
      WithoutTwice(h, CellOf(c.at), CellOf(e.at));
      FreeStrSpec(h, c);
      FreeStrSpec(Without(h, CellOf(c.at)), e);
      FreeCellSpec(Without(h, CellOf(c.at) + CellOf(e.at)), a);
    case PArray(a, items) =>
      WithoutTwice(h, OwnedVals(items) + OwnedKeys(items), CellOf(a));
      WithoutTwice(h, OwnedVals(items), OwnedKeys(items));
      FreeValsSpec(h, items);
      DestroySpec(Without(h, OwnedVals(items)), items);
      FreeCellSpec(Without(h, OwnedVals(items) + OwnedKeys(items)), a);
    case _ =>
      WithoutNone(h);
  }

  lemma {:induction false} FreeValsSpec(h: Heap, items: seq<PItem>)
    requires forall k | 0 <= k < |items| :: Proper(items[k].val)
    requires Distinct(OwnedVals(items)) && Holds(h, OwnedVals(items))
    ensures FreeVals(h, items) == Some(Without(h, OwnedVals(items)))
    decreases items, 0
  {
    if items == [] {
      WithoutNone(h);
    } else {
      var n := |items| - 1;
      var item := items[n];
      assert (item decreases to item.val);
      WithoutTwice(h, OwnedVals(items[..n]), Owned(item.val));
      FreeValsSpec(h, items[..n]);
      FreeSpec(Without(h, OwnedVals(items[..n])), item.val);
    }
  }

  lemma {:induction false} DestroySpec(h: Heap, items: seq<PItem>)
    requires Distinct(OwnedKeys(items)) && Holds(h, OwnedKeys(items))
    ensures DestroyTable(h, items) == Some(Without(h, OwnedKeys(items)))
  {
    if items == [] {
      WithoutNone(h);
    } else {
      var n := |items| - 1;
      WithoutTwice(h, OwnedKeys(items[..n]), KeyCells(items[n].key));
      DestroySpec(h, items[..n]);
      ReleaseKeySpec(Without(h, OwnedKeys(items[..n])), items[n].key);
    }
  }

  /* ---------- persisting ---------- */

  /** h1 extends h by the cells it allocated, each with one reference. */
  ghost predicate Extends(h: Heap, h1: Heap) {
    && h.next <= h1.next && h1.freed == h.freed
    && (forall c :: c in h1.live <==> c in h.live || h.next <= c < h1.next)
    && (forall c | c in h1.live :: h1.live[c] == if c in h.live then h.live[c] else 1)
  }

  /** No live cell has a number still to be given out. */
  ghost predicate Compact(h: Heap) {
    forall c | c in h.live :: c < h.next
  }

  /** The sequence lists the numbers from lo to hi, each once, in some order. */
  ghost predicate Lists(s: seq<nat>, lo: nat, hi: nat) {
    Distinct(s) && lo <= hi && forall c :: c in s <==> lo <= c < hi
  }

  lemma ExtendsTwice(h: Heap, h1: Heap, h2: Heap)
    requires Compact(h) && Extends(h, h1) && Extends(h1, h2)
    ensures Compact(h1) && Extends(h, h2)
  {
  }

  lemma JoinDistinct(a: seq<nat>, b: seq<nat>)
    requires Distinct(a) && Distinct(b) && forall c | c in a :: c !in b
    ensures Distinct(a + b)
    ensures forall c :: c in a + b <==> c in a || c in b
  {
    var s := a + b;
    forall j, k | 0 <= j < k < |s|
      ensures s[j] != s[k]
    {
      if j < |a| <= k {
        assert s[j] in a && s[k] == b[k - |a|] && b[k - |a|] in b;
      }
    }
  }

  /** Cells listed in two adjacent ranges, in either order. */
  lemma JoinLists(a: seq<nat>, b: seq<nat>, lo: nat, mid: nat, hi: nat)
    requires Lists(a, lo, mid) && Lists(b, mid, hi)
    ensures Lists(a + b, lo, hi) && Lists(b + a, lo, hi)
  {
    JoinDistinct(a, b);
    JoinDistinct(b, a);
  }

  /** The cells of one more item are listed with those of the others, values before keys. */
  lemma JoinItem(vals: seq<nat>, keys: seq<nat>, val: seq<nat>, key: seq<nat>, lo: nat, a: nat, b: nat, hi: nat)
    requires Lists(vals + keys, lo, a) && Lists(val, a, b) && Lists(key, b, hi)
    ensures Lists((vals + val) + (keys + key), lo, hi)
  {
    SplitDistinct(vals, keys);
    assert forall c | c in vals || c in keys :: c in vals + keys;
    JoinDistinct(vals, val);
    JoinDistinct(keys, key);
    JoinDistinct(vals + val, keys + key);
    forall c
      ensures c in (vals + val) + (keys + key) <==> lo <= c < hi
    {
      assert c in vals + keys <==> c in vals || c in keys;
    }
  }

  lemma AllocSpec(h: Heap)
    requires Compact(h)
    ensures var (h1, a) := Alloc(h); a.Cell? && Compact(h1) && Extends(h, h1) && Lists(CellOf(a), h.next, h1.next)
  {
  }

  lemma PersistStrSpec(h: Heap, s: Str)
    requires Compact(h)
    ensures var (h1, p) := PersistStr(h, s); Extends(h, h1) && Lists(CellOf(p.at), h.next, h1.next)
  {
  }

  lemma PersistKeySpec(h: Heap, k: Key)
    requires Compact(h)
    ensures var (h1, p) := PersistKey(h, k); Extends(h, h1) && Lists(KeyCells(p), h.next, h1.next)
  {
    if k.StrKey? {
      PersistStrSpec(h, k.s);
    }
  }

  /** Persisting owns exactly the cells it allocates, each once. */
  lemma {:induction false} PersistSpec(h: Heap, z: Val)
    requires Compact(h) && Supported(z)
    ensures var (h1, p) := Persist(h, z); Extends(h, h1) && Proper(p) && Lists(Owned(p), h.next, h1.next)
    decreases z, 1
  {
    match z
    case String(s) => PersistStrSpec(h, s);
    case Enum(c, e) => PersistEnumSpec(h, c, e);
    case Array(immutable, items) =>
      if !immutable {
        AllocSpec(h);
        var (h1, a) := Alloc(h);
        PersistItemsSpec(h1, items);
        var (h2, ps) := PersistItems(h1, items);
        ExtendsTwice(h, h1, h2);
        JoinLists(CellOf(a), OwnedVals(ps) + OwnedKeys(ps), h.next, h1.next, h2.next);
      }
    case _ =>
  }

  lemma TwoStrSpec(h: Heap, c: Str, e: Str)
    requires Compact(h)
    ensures var (h1, pc) := PersistStr(h, c);
            var (h2, pe) := PersistStr(h1, e);
            Extends(h, h2) && Lists(CellOf(pc.at) + CellOf(pe.at), h.next, h2.next)
  {
    PersistStrSpec(h, c);
    var (h1, pc) := PersistStr(h, c);
    assert Compact(h1) by { ExtendsTwice(h, h1, h1); }
    PersistStrSpec(h1, e);
    var (h2, pe) := PersistStr(h1, e);
    ExtendsTwice(h, h1, h2);
    JoinLists(CellOf(pc.at), CellOf(pe.at), h.next, h1.next, h2.next);
  }

  /** The cells of an enum: its own, then those of its two names. */
  lemma EnumCells(h: Heap, h1: Heap, h3: Heap, a: Address, pc: PStr, pe: PStr)
    requires Compact(h) && Extends(h, h1) && Extends(h1, h3) && a.Cell?
    requires Lists(CellOf(a), h.next, h1.next) && Lists(CellOf(pc.at) + CellOf(pe.at), h1.next, h3.next)
    ensures Extends(h, h3) && Proper(PEnum(a, pc, pe)) && Lists(Owned(PEnum(a, pc, pe)), h.next, h3.next)
  {
    ExtendsTwice(h, h1, h3);
    JoinLists(CellOf(a), CellOf(pc.at) + CellOf(pe.at), h.next, h1.next, h3.next);
  }

  lemma PersistEnumSpec(h: Heap, c: Str, e: Str)
    requires Compact(h)
    ensures var (h1, p) := Persist(h, Enum(c, e)); Extends(h, h1) && Proper(p) && Lists(Owned(p), h.next, h1.next)
  {
    AllocSpec(h);
    var (h1, a) := Alloc(h);
    TwoStrSpec(h1, c, e);
    var (h2, pc) := PersistStr(h1, c);
    var (h3, pe) := PersistStr(h2, e);
    EnumCells(h, h1, h3, a, pc, pe);
  }

  lemma {:induction false} PersistItemsSpec(h: Heap, items: seq<Item>)
    requires Compact(h) && forall k | 0 <= k < |items| :: Supported(items[k].val)
    ensures var (h1, ps) := PersistItems(h, items);
            && Extends(h, h1) && (forall k | 0 <= k < |ps| :: Proper(ps[k].val))
            && Lists(OwnedVals(ps) + OwnedKeys(ps), h.next, h1.next)
    decreases items, 0
  {
    if items != [] {
      var n := |items| - 1;
      var item := items[n];
      assert (item decreases to item.val);
      PersistItemsSpec(h, items[..n]);
      var (h1, ps) := PersistItems(h, items[..n]);
      PersistSpec(h1, item.val);
      var (h2, v) := Persist(h1, item.val);
      ExtendsTwice(h, h1, h2);
      PersistKeySpec(h2, item.key);
      var (h3, k) := PersistKey(h2, item.key);
      ExtendsTwice(h, h2, h3);
      var all := ps + [PItem(k, v)];
      assert all[..|all| - 1] == ps;
      JoinItem(OwnedVals(ps), OwnedKeys(ps), Owned(v), KeyCells(k), h.next, h1.next, h2.next, h3.next);
    }
  }

  /** Persist then free: memory is as before, and the cells given back are exactly those that were
      allocated, each exactly once. No borrowed string or array is ever freed. */
  lemma PersistThenFree(h: Heap, z: Val)
    requires Compact(h) && Supported(z)
    ensures var (h1, p) := Persist(h, z);
            var r := Free(h1, p);
            && r.Some? && r.value.live == h.live
            && |h.freed| <= |r.value.freed| && r.value.freed[..|h.freed|] == h.freed
            && Lists(r.value.freed[|h.freed|..], h.next, h1.next)
  {
    PersistSpec(h, z);
    var (h1, p) := Persist(h, z);
    FreeSpec(h1, p);
    var r := Without(h1, Owned(p));
    assert r.live == h.live;
    assert r.freed[|h.freed|..] == Owned(p);
  }

  /* ---------- recursion depth ---------- */

  /** Nested activations of the recursive functions on a persistent value. */
  function Frames(p: PVal): nat
    decreases p, 1
  {
    1 + if p.PArray? then ItemsFrames(p.items) else 0
  }

  function ItemsFrames(items: seq<PItem>): nat
    decreases items, 0
  {
    if items == [] then 0 else
    var item := items[|items| - 1];
    assert (item decreases to item.val);
    Max(ItemsFrames(items[..|items| - 1]), Frames(item.val))
  }

  lemma {:induction false} FramesArePersisted(h: Heap, z: Val)
    requires Supported(z)
    ensures Frames(Persist(h, z).1) == 1 + Nesting(z)
    decreases z, 1
  {
    if z.Array? && !z.immutable {
      var (h1, a) := Alloc(h);
      ItemsFramesArePersisted(h1, z.items);
    }
  }

  lemma {:induction false} ItemsFramesArePersisted(h: Heap, items: seq<Item>)
    requires forall k | 0 <= k < |items| :: Supported(items[k].val)
    ensures ItemsFrames(PersistItems(h, items).1) == ItemsNesting(items)
    decreases items, 0
  {
    if items != [] {
      var n := |items| - 1;
      var item := items[n];
      assert (item decreases to item.val);
      ItemsFramesArePersisted(h, items[..n]);
      var (h1, ps) := PersistItems(h, items[..n]);
      FramesArePersisted(h1, item.val);
      var all := PersistItems(h, items).1;
      assert all[..|all| - 1] == ps;
    }
  }

  /** A validated value needs at most MAX_DEPTH + 1 nested calls to persist, free or restore. */
  lemma ValidatedDepthIsBounded(h: Heap, z: Val)
    requires Validate(z, 0)
    ensures Supported(z) && 1 + Nesting(z) <= MAX_DEPTH + 1
    ensures Frames(Persist(h, z).1) <= MAX_DEPTH + 1
  {
    ValidateIff(z, 0);
    FramesArePersisted(h, z);
  }
}

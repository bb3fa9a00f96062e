/**
  Deep copies of PHP values into persistent memory and back (zval.h). Cells of persistent memory are
  numbered; interned strings and immutable arrays live elsewhere and are only borrowed.
 */
module PersistentZval {
  import opened Options

  const MAX_DEPTH := 256

  /* ---------- request-side values ---------- */

  /** An interned string is process-wide and shared by pointer; a plain one is copied. */
  datatype Str = Interned(id: nat, bytes: string) | Plain(bytes: string)

  datatype Key = IntKey(n: int) | StrKey(s: Str)

  datatype Val =
    | Null
    | Bool(b: bool)
    | Long(n: int)
    | Double(bits: nat)
    | String(s: Str)
    | Enum(className: Str, caseName: Str)
    | Array(immutable: bool, items: seq<Item>)
    | Other                                       // other objects, resources, references, ...

  datatype Item = Item(key: Key, val: Val)

  /* ---------- persistent values ---------- */

  datatype Address = Static(id: nat) | Cell(n: nat)
  datatype PStr = PStr(at: Address, bytes: string)
  datatype PKey = PIntKey(n: int) | PStrKey(s: PStr)

  datatype PVal =
    | PNull
    | PBool(b: bool)
    | PLong(n: int)
    | PDouble(bits: nat)
    | PString(s: PStr)
    | PEnum(at: Address, className: PStr, caseName: PStr)
    | PArray(at: Address, items: seq<PItem>)
    | PShared(shared: Val)                         // an immutable array, by pointer

  datatype PItem = PItem(key: PKey, val: PVal)

  /** Reference counts of the live cells; `freed` logs every cell given back, in order. */
  datatype Heap = Heap(next: nat, live: map<nat, nat>, freed: seq<nat>)

  function Alloc(h: Heap): (Heap, Address) {
    (h.(next := h.next + 1, live := h.live[h.next := 1]), Cell(h.next))
  }

  function AddRef(h: Heap, a: Address): Heap {
    if a.Cell? && a.n in h.live then h.(live := h.live[a.n := h.live[a.n] + 1]) else h
  }

  /** pefree / zend_string_free: None when the address is not a live cell. */
  function FreeCell(h: Heap, a: Address): Option<Heap> {
    if a.Cell? && a.n in h.live
    then Some(h.(live := h.live - {a.n}, freed := h.freed + [a.n])) else None
  }

  /** zend_string_release */
  function Release(h: Heap, a: Address): Option<Heap> {
    if a.Cell? && a.n in h.live && h.live[a.n] > 1
    then Some(h.(live := h.live[a.n := h.live[a.n] - 1])) else FreeCell(h, a)
  }

  /* ---------- persistent_zval_validate ---------- */

  predicate Validate(z: Val, depth: nat)
    decreases z
  {
    if depth > MAX_DEPTH then false else
    match z
    case Other => false
    case Array(immutable, items) =>
      immutable || forall k | 0 <= k < |items| :: Validate(items[k].val, depth + 1)
    case _ => true
  }

  /** The whitelist alone. */
  predicate Supported(z: Val) {
    match z
    case Other => false
    case Array(immutable, items) => immutable || forall k | 0 <= k < |items| :: Supported(items[k].val)
    case _ => true
  }

  function Max(a: nat, b: nat): nat {
    if a < b then b else a
  }

  /** How many levels of copied arrays a value has below its root. */
  function Nesting(z: Val): nat
    decreases z, 1
  {
    if z.Array? && !z.immutable then ItemsNesting(z.items) else 0
  }

  function ItemsNesting(items: seq<Item>): nat
    decreases items, 0
  {
    if items == [] then 0 else
    var item := items[|items| - 1];
    assert (item decreases to item.val);
    Max(ItemsNesting(items[..|items| - 1]), 1 + Nesting(item.val))
  }

  lemma {:induction false} ItemsNestingBound(items: seq<Item>, bound: int)
    ensures ItemsNesting(items) <= bound
       <==> 0 <= bound && forall k | 0 <= k < |items| :: 1 + Nesting(items[k].val) <= bound
  {
    if items != [] {
      var n := |items| - 1;
      ItemsNestingBound(items[..n], bound);
      assert forall k | 0 <= k < n :: items[..n][k] == items[k];
      if forall k | 0 <= k < |items| :: 1 + Nesting(items[k].val) <= bound {
        assert 1 + Nesting(items[n].val) <= bound;
      }
    }
  }

  /** Validation accepts exactly the supported values whose nesting fits below the cap. */
  lemma {:induction false} ValidateIff(z: Val, depth: nat)
    ensures Validate(z, depth) <==> depth + Nesting(z) <= MAX_DEPTH && Supported(z)
    decreases z
  {
    if z.Array? && !z.immutable {
      forall k | 0 <= k < |z.items|
        ensures Validate(z.items[k].val, depth + 1)
           <==> depth + 1 + Nesting(z.items[k].val) <= MAX_DEPTH && Supported(z.items[k].val)
      {
        ValidateIff(z.items[k].val, depth + 1);
      }
      ItemsNestingBound(z.items, MAX_DEPTH - depth);
    }
  }

  /* ---------- persistent_zval_persist ---------- */

  function PersistStr(h: Heap, s: Str): (Heap, PStr) {
    match s
    case Interned(id, bytes) => (h, PStr(Static(id), bytes))
    case Plain(bytes) => var (h1, a) := Alloc(h); (h1, PStr(a, bytes))
  }

  /** A key: the table takes its own reference, and the local one is released. */
  function PersistKey(h: Heap, k: Key): (Heap, PKey) {
    match k
    case IntKey(n) => (h, PIntKey(n))
    case StrKey(s) =>
      var (h1, p) := PersistStr(h, s);
      if s.Interned? then (h1, PStrKey(p)) else
      match Release(AddRef(h1, p.at), p.at)
      case Some(h2) => (h2, PStrKey(p))
      case None => (h1, PStrKey(p))
  }

  function Persist(h: Heap, z: Val): (Heap, PVal)
    requires Supported(z)
    decreases z, 1
  {
    match z
    case Null => (h, PNull)
    case Bool(b) => (h, PBool(b))
    case Long(n) => (h, PLong(n))
    case Double(bits) => (h, PDouble(bits))
    case String(s) => var (h1, p) := PersistStr(h, s); (h1, PString(p))
    case Enum(className, caseName) =>
      var (h1, a) := Alloc(h);
      var (h2, c) := PersistStr(h1, className);
      var (h3, e) := PersistStr(h2, caseName);
      (h3, PEnum(a, c, e))
    case Array(immutable, items) =>
      if immutable then (h, PShared(z)) else
      var (h1, a) := Alloc(h);
      var (h2, ps) := PersistItems(h1, items);
      (h2, PArray(a, ps))
  }

  function PersistItems(h: Heap, items: seq<Item>): (Heap, seq<PItem>)
    requires forall k | 0 <= k < |items| :: Supported(items[k].val)
    decreases items, 0
  {
    if items == [] then (h, []) else
    var item := items[|items| - 1];
    assert (item decreases to item.val);
    var (h1, ps) := PersistItems(h, items[..|items| - 1]);
    var (h2, v) := Persist(h1, item.val);
    var (h3, k) := PersistKey(h2, item.key);
    (h3, ps + [PItem(k, v)])
  }

  /* ---------- persistent_zval_free ---------- */

  function FreeStr(h: Heap, s: PStr): Option<Heap> {
    if s.at.Static? then Some(h) else FreeCell(h, s.at)
  }

  function Free(h: Heap, p: PVal): Option<Heap>
    decreases p, 1
  {
    match p
    case PString(s) => FreeStr(h, s)
    case PEnum(a, c, e) => (
      match FreeStr(h, c)
      case None => None
      case Some(h1) =>
        match FreeStr(h1, e)
        case None => None
        case Some(h2) => FreeCell(h2, a))
    case PArray(a, items) => (
      match FreeVals(h, items)
      case None => None
      case Some(h1) =>
        match DestroyTable(h1, items)
        case None => None
        case Some(h2) => FreeCell(h2, a))
    case _ => Some(h)
  }

  function FreeVals(h: Heap, items: seq<PItem>): Option<Heap>
    decreases items, 0
  {
    if items == [] then Some(h) else
    var item := items[|items| - 1];
    assert (item decreases to item.val);
    match FreeVals(h, items[..|items| - 1])
    case None => None
    case Some(h1) => Free(h1, item.val)
  }

  function ReleaseKey(h: Heap, k: PKey): Option<Heap> {
    if k.PStrKey? && k.s.at.Cell? then Release(h, k.s.at) else Some(h)
  }

  /** zend_hash_destroy: the table's references to its keys are released. */
  function DestroyTable(h: Heap, items: seq<PItem>): Option<Heap> {
    if items == [] then Some(h) else
    match DestroyTable(h, items[..|items| - 1])
    case None => None
    case Some(h1) => ReleaseKey(h1, items[|items| - 1].key)
  }

  /* ---------- persistent_zval_to_request ---------- */

  /** The enum cases the current thread can resolve, by class and case name. */
  type Cases = map<(string, string), Val>

  function StrToRequest(s: PStr): Str {
    if s.at.Static? then Interned(s.at.id, s.bytes) else Plain(s.bytes)
  }

  function KeyToRequest(k: PKey): Key {
    match k
    case PIntKey(n) => IntKey(n)
    case PStrKey(s) => StrKey(StrToRequest(s))
  }

  datatype Restored = Restored(val: Val, thrown: bool)

  function ToRequest(p: PVal, cases: Cases): Restored
    decreases p, 1
  {
    match p
    case PNull => Restored(Null, false)
    case PBool(b) => Restored(Bool(b), false)
    case PLong(n) => Restored(Long(n), false)
    case PDouble(bits) => Restored(Double(bits), false)
    case PString(s) => Restored(String(StrToRequest(s)), false)
    case PEnum(_, c, e) =>
      if (c.bytes, e.bytes) in cases then Restored(cases[(c.bytes, e.bytes)], false) else Restored(Null, true)
    case PArray(_, items) =>
      var (vals, thrown) := ItemsToRequest(items, cases);
      Restored(Array(false, vals), thrown)
    case PShared(shared) => Restored(shared, false)
  }

  /** The loop over the table: it stops at the first exception, which stays pending. */
  function ItemsToRequest(items: seq<PItem>, cases: Cases): (seq<Item>, bool)
    decreases items, 0
  {
    if items == [] then ([], false) else
    var item := items[|items| - 1];
    assert (item decreases to item.val);
    var (vals, thrown) := ItemsToRequest(items[..|items| - 1], cases);
    if thrown then (vals, true) else
    var r := ToRequest(item.val, cases);
    if r.thrown then (vals, true) else (vals + [Item(KeyToRequest(item.key), r.val)], false)
  }

  /* ---------- the code: tables are allocated, filled, emptied and released in place ---------- */

  class Memory {
    var heap: Heap

    constructor ()
      ensures heap == Heap(0, map[], [])
    {
      heap := Heap(0, map[], []);
    }

    method PersistValue(z: Val) returns (p: PVal)
      requires Supported(z)
      modifies this
      ensures (heap, p) == Persist(old(heap), z)
      decreases z
    {
      if !z.Array? || z.immutable {
        var (h, r) := Persist(heap, z);
        heap := h;
        return r;
      }
      var (h, at) := Alloc(heap);
      heap := h;
      var ps: seq<PItem> := [];
      for i := 0 to |z.items|
        invariant (heap, ps) == PersistItems(h, z.items[..i])
      {
        assert z.items[..i + 1][..i] == z.items[..i];
        var v := PersistValue(z.items[i].val);
        var (h1, k) := PersistKey(heap, z.items[i].key);
        heap := h1;
        ps := ps + [PItem(k, v)];
      }
      assert z.items[..|z.items|] == z.items;
      p := PArray(at, ps);
    }

    /** `ok` is false when something that is not a live cell was to be freed. */
    method FreeValue(p: PVal) returns (ok: bool)
      modifies this
      ensures ok == Free(old(heap), p).Some?
      ensures ok ==> heap == Free(old(heap), p).value
      decreases p
    {
      if !p.PArray? {
        var r := Free(heap, p);
        if r.Some? {
          heap := r.value;
        }
        return r.Some?;
      }
      ghost var h := heap;
      for i := 0 to |p.items|
        invariant FreeVals(h, p.items[..i]) == Some(heap)
      {
        assert p.items[..i + 1][..i] == p.items[..i];
        var freed := FreeValue(p.items[i].val);
        if !freed {
          FreeValsFails(h, p.items, i + 1);
          return false;
        }
      }
      assert p.items[..|p.items|] == p.items;
      var destroyed := DestroyTable(heap, p.items);
      if destroyed.None? {
        return false;
      }
      var r := FreeCell(destroyed.value, p.at);
      if r.Some? {
        heap := r.value;
      }
      ok := r.Some?;
    }
  }

  lemma {:induction false} FreeValsFails(h: Heap, items: seq<PItem>, n: nat)
    requires n <= |items| && FreeVals(h, items[..n]).None?
    ensures FreeVals(h, items).None?
    decreases |items| - n
  {
    if n == |items| {
      assert items[..n] == items;
    } else {
      assert items[..n + 1][..n] == items[..n];
      FreeValsFails(h, items, n + 1);
    }
  }

  method RestoreValue(p: PVal, cases: Cases) returns (val: Val, thrown: bool)
    ensures Restored(val, thrown) == ToRequest(p, cases)
    decreases p
  {
    if !p.PArray? {
      var r := ToRequest(p, cases);
      return r.val, r.thrown;
    }
    var vals: seq<Item> := [];
    for i := 0 to |p.items|
      invariant ItemsToRequest(p.items[..i], cases) == (vals, false)
    {
      assert p.items[..i + 1][..i] == p.items[..i];
      var v, exception := RestoreValue(p.items[i].val, cases);
      if exception {
        RestoreStops(p.items, i + 1, cases);
        return Array(false, vals), true;
      }
      vals := vals + [Item(KeyToRequest(p.items[i].key), v)];
    }
    assert p.items[..|p.items|] == p.items;
    return Array(false, vals), false;
  }

  lemma {:induction false} RestoreStops(items: seq<PItem>, n: nat, cases: Cases)
    requires n <= |items| && ItemsToRequest(items[..n], cases).1
    ensures ItemsToRequest(items, cases) == ItemsToRequest(items[..n], cases)
    decreases |items| - n
  {
    if n == |items| {
      assert items[..n] == items;
    } else {
      assert items[..n + 1][..n] == items[..n];
      RestoreStops(items, n + 1, cases);
    }
  }
}

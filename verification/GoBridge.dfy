/**
  Converting PHP values to Go values (types.go, goValue and the array functions below it).
  PHP arrays and references live in a heap graph that may share cells and may have cycles.
 */
module GoBridge {

  datatype Zval =
    | ZUndef
    | ZNull
    | ZBool(b: bool)
    | ZLong(n: int)
    | ZDouble(bits: nat)          // copied only, never computed with
    | ZString(s: string)
    | ZArray(table: nat)
    | ZReference(cell: nat)
    | ZOther(tag: nat)            // objects, resources, ...

  datatype Key = IntKey(n: int) | StrKey(s: string)
  datatype Bucket = Bucket(key: Key, val: Zval)
  datatype Cell = Table(packed: bool, buckets: seq<Bucket>) | RefCell(val: Zval)
  type Heap = seq<Cell>

  datatype GoVal =
    | GNil
    | GBool(b: bool)
    | GInt(n: int)
    | GFloat(bits: nat)
    | GString(s: string)
    | GSlice(items: seq<GoVal>)
    | GAssoc(entries: map<string, GoVal>, order: seq<string>)

  datatype Pair = Pair(key: string, val: GoVal)

  datatype Result<T> = Ok(value: T) | Recursive | Unsupported

  /** Zend's own well-formedness: array and reference zvals point to cells of their kind. */
  predicate ZvalOk(heap: Heap, z: Zval) {
    match z
    case ZArray(a) => a < |heap| && heap[a].Table?
    case ZReference(a) => a < |heap| && heap[a].RefCell?
    case _ => true
  }

  predicate CellOk(heap: Heap, c: Cell) {
    match c
    case Table(_, buckets) => forall k | 0 <= k < |buckets| :: ZvalOk(heap, buckets[k].val)
    case RefCell(val) => ZvalOk(heap, val)
  }

  predicate HeapOk(heap: Heap) {
    forall a | 0 <= a < |heap| :: CellOk(heap, heap[a])
  }

  /* ---------- the conversion, as a function of the tables being converted ---------- */

  function Deref(heap: Heap, z: Zval): (r: Zval)
    requires HeapOk(heap) && ZvalOk(heap, z)
    ensures ZvalOk(heap, r)
  {
    if z.ZReference? then heap[z.cell].val else z
  }

  function Digits(n: nat): string {
    if n < 10 then [(48 + n) as char] else Digits(n / 10) + [(48 + n % 10) as char]
  }

  function Itoa(n: int): string {
    if n < 0 then "-" + Digits(-n) else Digits(n)
  }

  function KeyString(k: Key): string {
    match k
    case StrKey(s) => s
    case IntKey(n) => Itoa(n)
  }

  /** Tables that are not being converted. */
  function Unprotected(heap: Heap, busy: set<nat>): set<nat> {
    set a: nat | a < |heap| && a !in busy
  }

  function Values(pairs: seq<Pair>): seq<GoVal> {
    seq(|pairs|, i requires 0 <= i < |pairs| => pairs[i].val)
  }

  function Keys(pairs: seq<Pair>): seq<string> {
    seq(|pairs|, i requires 0 <= i < |pairs| => pairs[i].key)
  }

  function Entries(pairs: seq<Pair>): map<string, GoVal> {
    if pairs == [] then map[] else
    var p := pairs[|pairs| - 1];
    Entries(pairs[..|pairs| - 1])[p.key := p.val]
  }

  /** goValue[any], when the tables in `busy` carry the recursion flag. */
  function Convert(heap: Heap, z: Zval, busy: set<nat>): Result<GoVal>
    requires HeapOk(heap) && ZvalOk(heap, z)
    decreases Unprotected(heap, busy), 0
  {
    match Deref(heap, z)
    case ZNull => Ok(GNil)
    case ZBool(b) => Ok(GBool(b))
    case ZLong(n) => Ok(GInt(n))
    case ZDouble(bits) => Ok(GFloat(bits))
    case ZString(s) => Ok(GString(s))
    case ZArray(a) =>
      if a in busy then Recursive else
      assert a in Unprotected(heap, busy) && a !in Unprotected(heap, busy + {a});
      assert CellOk(heap, heap[a]);
      (match ConvertBuckets(heap, heap[a].buckets, busy + {a})
       case Ok(pairs) => Ok(if heap[a].packed then GSlice(Values(pairs)) else GAssoc(Entries(pairs), Keys(pairs)))
       case Recursive => Recursive
       case Unsupported => Unsupported)
    case _ => Unsupported
  }

  /** The loops of GoPackedArray and goArray: the first failing element decides. */
  function ConvertBuckets(heap: Heap, buckets: seq<Bucket>, busy: set<nat>): Result<seq<Pair>>
    requires HeapOk(heap) && forall k | 0 <= k < |buckets| :: ZvalOk(heap, buckets[k].val)
    decreases Unprotected(heap, busy), 1 + |buckets|
  {
    if buckets == [] then Ok([]) else
    var last := buckets[|buckets| - 1];
    match ConvertBuckets(heap, buckets[..|buckets| - 1], busy)
    case Recursive => Recursive
    case Unsupported => Unsupported
    case Ok(pairs) =>
      if last.val.ZUndef? then Ok(pairs) else
      match Convert(heap, last.val, busy)
      case Recursive => Recursive
      case Unsupported => Unsupported
      case Ok(v) => Ok(pairs + [Pair(KeyString(last.key), v)])
  }

  /* ---------- the code: recursion flags set and cleared on the heap ---------- */

  class Converter {
    const heap: Heap
    var flagged: set<nat>

    constructor (heap: Heap, flagged: set<nat>)
      ensures this.heap == heap && this.flagged == flagged
    {
      this.heap := heap;
      this.flagged := flagged;
    }

    method ProtectRecursion(a: nat) returns (ok: bool)
      modifies this
      ensures ok == (a !in old(flagged))
      ensures flagged == if ok then old(flagged) + {a} else old(flagged)
    {
      ok := a !in flagged;
      if ok {
        flagged := flagged + {a};
      }
    }

    /** Leaves every recursion flag as it was, on success and on each error path. */
    method GoValue(z: Zval) returns (r: Result<GoVal>)
      requires HeapOk(heap) && ZvalOk(heap, z)
      modifies this
      ensures flagged == old(flagged)
      ensures r == Convert(heap, z, old(flagged))
      decreases Unprotected(heap, flagged), 0
    {
      var d := Deref(heap, z);
      match d
      case ZNull => r := Ok(GNil);
      case ZBool(b) => r := Ok(GBool(b));
      case ZLong(n) => r := Ok(GInt(n));
      case ZDouble(bits) => r := Ok(GFloat(bits));
      case ZString(s) => r := Ok(GString(s));
      case ZArray(a) =>
        assert CellOk(heap, heap[a]);
        var acquired := ProtectRecursion(a);
        if !acquired {
          return Recursive;
        }
        assert a in Unprotected(heap, old(flagged)) && a !in Unprotected(heap, flagged);
        var pairs := GoBuckets(heap[a].buckets);
        flagged := flagged - {a};
        assert flagged == old(flagged);
        match pairs {
          case Ok(p) => r := Ok(if heap[a].packed then GSlice(Values(p)) else GAssoc(Entries(p), Keys(p)));
          case Recursive => r := Recursive;
          case Unsupported => r := Unsupported;
        }
      case _ => r := Unsupported;
    }

    method GoBuckets(buckets: seq<Bucket>) returns (r: Result<seq<Pair>>)
      requires HeapOk(heap) && forall k | 0 <= k < |buckets| :: ZvalOk(heap, buckets[k].val)
      modifies this
      ensures flagged == old(flagged)
      ensures r == ConvertBuckets(heap, buckets, old(flagged))
      decreases Unprotected(heap, flagged), 1
    {
      var pairs: seq<Pair> := [];
      for i := 0 to |buckets|
        invariant flagged == old(flagged)
        invariant ConvertBuckets(heap, buckets[..i], flagged) == Ok(pairs)
      {
        assert buckets[..i + 1][..i] == buckets[..i];
        if !buckets[i].val.ZUndef? {
          var v := GoValue(buckets[i].val);
          if !v.Ok? {
            FailsFromHere(heap, buckets, i + 1, flagged);
            return if v.Recursive? then Recursive else Unsupported;
          }
          pairs := pairs + [Pair(KeyString(buckets[i].key), v.value)];
        }
      }
      assert buckets[..|buckets|] == buckets;
      r := Ok(pairs);
    }
  }

  lemma {:induction false} FailsFromHere(heap: Heap, buckets: seq<Bucket>, n: nat, busy: set<nat>)
    requires HeapOk(heap) && forall k | 0 <= k < |buckets| :: ZvalOk(heap, buckets[k].val)
    requires n <= |buckets| && !ConvertBuckets(heap, buckets[..n], busy).Ok?
    ensures ConvertBuckets(heap, buckets, busy) == ConvertBuckets(heap, buckets[..n], busy)
    decreases |buckets| - n
  {
    if n == |buckets| {
      assert buckets[..n] == buckets;
    } else {
      assert buckets[..n + 1][..n] == buckets[..n];
      FailsFromHere(heap, buckets, n + 1, busy);
    }
  }
}

/**
 * Model of the fast paths of the resizable hash table
 * (include/linux/rhashtable.h): the bucket index, the load-factor
 * predicates that decide when the table should grow or shrink, the
 * nulls-marker test, and lookup, insert, remove and replace on one
 * bucket table whose chains are walked the way the header walks them.
 *
 * A bucket table is an array of chains; a chain is modelled as the
 * sequence of its objects from the bucket head to the nulls marker.
 * An object is identified by its value (its address and its key).
 * The hash function with its random seed is a parameter of the table;
 * the table being resized (a future table present) is an input that
 * sends the caller to the slow path, which lives in lib/rhashtable.c.
 */
module Rhashtable {
  import opened Wrappers

  /** RHT_ELASTICITY: a chain this long sends an insert to the slow path. */
  const RhtElasticity: nat := 16

  // ---------------------------------------------------------------
  // Bits of unsigned values
  // ---------------------------------------------------------------

  /** x & y on unsigned values, bit by bit from the low end. */
  function BitAnd(x: nat, y: nat): nat {
    if x == 0 || y == 0 then 0
    else 2 * BitAnd(x / 2, y / 2) + (if x % 2 == 1 && y % 2 == 1 then 1 else 0)
  }

  /** x & y is at most either operand. */
  lemma {:induction false} BitAndBounded(x: nat, y: nat)
    ensures BitAnd(x, y) <= x && BitAnd(x, y) <= y
  {
    if x != 0 && y != 0 {
      BitAndBounded(x / 2, y / 2);
    }
  }

  /** A power of two: 1, 2, 4, ... */
  predicate IsPow2(n: nat)
    decreases n
  {
    n == 1 || (n > 1 && n % 2 == 0 && IsPow2(n / 2))
  }

  /** The remainder by 2m from the remainder of the halved value by m. */
  lemma ModHalf(x: nat, m: nat)
    requires m > 0
    ensures x % (2 * m) == 2 * ((x / 2) % m) + x % 2
  {
    var y := x / 2;
    DivBounds(y, m);
    var q := y / m;
    var s := y - q * m;
    DivModUnique(y, m, q, s);
    assert 2 * (q * m) == q * (2 * m);
    DivModUnique(x, 2 * m, q, 2 * s + x % 2);
  }

  /** Masking with n - 1 keeps the remainder by n when n is a power of two. */
  lemma {:induction false} MaskIsRemainder(x: nat, n: nat)
    requires IsPow2(n)
    ensures BitAnd(x, n - 1) == x % n
    decreases n
  {
    if n > 1 && x != 0 {
      var h := n / 2;
      assert n == 2 * h && h > 0;
      assert (n - 1) / 2 == h - 1 && (n - 1) % 2 == 1;
      MaskIsRemainder(x / 2, h);
      var bit := if x % 2 == 1 then 1 else 0;
      assert bit == x % 2;
      assert BitAnd(x, n - 1) == 2 * BitAnd(x / 2, h - 1) + bit;
      ModHalf(x, h);
    }
  }

  /** rht_bucket_index: hash & (size - 1), always a bucket of the table. */
  function BucketIndex(hash: nat, size: nat): (r: nat)
    requires size > 0
    ensures r < size
  {
    BitAndBounded(hash, size - 1);
    BitAnd(hash, size - 1)
  }

  /** For the power-of-two sizes tables have, the bucket is hash mod size. */
  lemma BucketIsRemainder(hash: nat, size: nat)
    requires IsPow2(size)
    ensures BucketIndex(hash, size) == hash % size
  {
    MaskIsRemainder(hash, size);
  }

  /** rht_is_a_nulls: the end-of-chain marker has its low bit set. */
  function IsANulls(ptr: nat): (r: bool)
    ensures r <==> ptr % 2 == 1
  {
    assert IsPow2(2);
    MaskIsRemainder(ptr, 2);
    BitAnd(ptr, 1) == 1
  }

  // ---------------------------------------------------------------
  // Load factor
  // ---------------------------------------------------------------

  /** rht_grow_above_75: more than 75% full, and allowed to grow. */
  function GrowAbove75(nelems: nat, size: nat, maxSize: nat): (r: bool)
    ensures 4 * nelems > 3 * size && (maxSize == 0 || size < maxSize) ==> r
    ensures size % 4 == 0 ==> (r <==> 4 * nelems > 3 * size && (maxSize == 0 || size < maxSize))
  {
    nelems > size / 4 * 3 && (maxSize == 0 || size < maxSize)
  }

  /** rht_shrink_below_30: less than 30% full and above the minimum
    * size; size * 3 is computed in unsigned 32 bits. */
  function ShrinkBelow30(nelems: nat, size: nat, minSize: nat): (r: bool)
    ensures r <==> 10 * (nelems + 1) <= ToU32(size * 3) && size > minSize
    ensures r ==> 10 * nelems < 3 * size
  {
    DivBounds(ToU32(size * 3), 10);
    nelems < ToU32(size * 3) / 10 && size > minSize
  }

  /** rht_grow_above_100: more objects than buckets, and allowed to grow. */
  function GrowAbove100(nelems: nat, size: nat, maxSize: nat): bool {
    nelems > size && (maxSize == 0 || size < maxSize)
  }

  /** rht_grow_above_max: the table holds its maximum number of objects. */
  function GrowAboveMax(nelems: nat, maxElems: nat): bool {
    nelems >= maxElems
  }

  /** A table is never both due to grow and due to shrink. */
  lemma GrowShrinkExclusive(nelems: nat, size: nat, minSize: nat, maxSize: nat)
    ensures !(GrowAbove75(nelems, size, maxSize) && ShrinkBelow30(nelems, size, minSize))
  {
    if GrowAbove75(nelems, size, maxSize) {
      DivBounds(size, 4);
      assert 10 * nelems >= 3 * size;
    }
  }

  /** Being over 100% full is being over 75% full. */
  lemma Grow100ImpliesGrow75(nelems: nat, size: nat, maxSize: nat)
    ensures GrowAbove100(nelems, size, maxSize) ==> GrowAbove75(nelems, size, maxSize)
  {
    DivBounds(size, 4);
  }

  // ---------------------------------------------------------------
  // Chains
  // ---------------------------------------------------------------

  /** An object in the table: its address and its key bytes. */
  datatype Obj = Obj(addr: nat, key: seq<bv8>)

  /** The position of the first object in the chain whose key equals key
    * (the compare callback returning 0). */
  function FirstKey(chain: seq<Obj>, key: seq<bv8>): (r: Option<nat>)
    ensures r.Some? ==> r.value < |chain| && chain[r.value].key == key
    ensures r.Some? ==> forall j :: 0 <= j < r.value ==> chain[j].key != key
    ensures r.None? ==> forall j :: 0 <= j < |chain| ==> chain[j].key != key
  {
    if |chain| == 0 then None
    else if chain[0].key == key then Some(0)
    else match FirstKey(chain[1..], key)
      case None => None
      case Some(i) => Some(i + 1)
  }

  /** The position of the object itself in the chain (he == obj). */
  function Position(chain: seq<Obj>, obj: Obj): (r: Option<nat>)
    ensures r.Some? ==> r.value < |chain| && chain[r.value] == obj
    ensures r.Some? ==> forall j :: 0 <= j < r.value ==> chain[j] != obj
    ensures r.None? <==> obj !in chain
  {
    if |chain| == 0 then None
    else if chain[0] == obj then Some(0)
    else match Position(chain[1..], obj)
      case None => None
      case Some(i) => Some(i + 1)
  }

  /** The chain with position i unlinked (*pprev = obj->next). */
  function Unlink(chain: seq<Obj>, i: nat): (r: seq<Obj>)
    requires i < |chain|
    ensures |r| == |chain| - 1
    ensures forall j :: 0 <= j < i ==> r[j] == chain[j]
    ensures forall j :: i <= j < |r| ==> r[j] == chain[j + 1]
  {
    chain[..i] + chain[i + 1..]
  }

  /** The number of objects in all chains. */
  function Count(buckets: seq<seq<Obj>>): nat {
    if |buckets| == 0 then 0 else Count(buckets[..|buckets| - 1]) + |buckets[|buckets| - 1]|
  }

  /** Replacing one chain changes the count by the difference of lengths. */
  lemma {:induction false} CountUpdate(buckets: seq<seq<Obj>>, b: nat, chain: seq<Obj>)
    requires b < |buckets|
    ensures Count(buckets[b := chain]) == Count(buckets) - |buckets[b]| + |chain|
  {
    var n := |buckets| - 1;
    var s := buckets[b := chain];
    if b == n {
      assert s[..n] == buckets[..n];
    } else {
      assert s[..n] == buckets[..n][b := chain];
      CountUpdate(buckets[..n], b, chain);
    }
  }

  /** Chains that are all empty hold no object. */
  lemma {:induction false} CountEmpty(buckets: seq<seq<Obj>>)
    requires forall b :: 0 <= b < |buckets| ==> buckets[b] == []
    ensures Count(buckets) == 0
  {
    if |buckets| > 0 {
      CountEmpty(buckets[..|buckets| - 1]);
    }
  }

  /** An object linked behind a chain that holds no object of its key is
    * what a lookup of that key then finds. */
  lemma InsertThenLookup(chain: seq<Obj>, obj: Obj)
    requires FirstKey(chain, obj.key).None?
    ensures FirstKey(chain + [obj], obj.key) == Some(|chain|)
  {
    var l := chain + [obj];
    assert l[|chain|].key == obj.key;
    var r := FirstKey(l, obj.key);
    assert r.Some? && r.value <= |chain|;
  }

  /** Removing an object linked behind a chain that did not hold it gives
    * the chain back. */
  lemma InsertRemoveRoundTrip(chain: seq<Obj>, obj: Obj)
    requires obj !in chain
    ensures Position(chain + [obj], obj) == Some(|chain|)
    ensures Unlink(chain + [obj], |chain|) == chain
  {
    var l := chain + [obj];
    assert l[|chain|] == obj;
    var r := Position(l, obj);
    assert r.Some? && r.value <= |chain|;
  }

  /** The chain walk of a keyed insert or a lookup: the first object with
    * the key, and the elasticity left when none is found. */
  method WalkKey(chain: seq<Obj>, key: Option<seq<bv8>>) returns (found: Option<nat>, elasticity: int)
    ensures key.None? ==> found.None?
    ensures key.Some? ==> found == FirstKey(chain, key.value)
    ensures found.None? ==> elasticity == RhtElasticity - |chain|
  {
    elasticity := RhtElasticity;
    var i := 0;
    while i < |chain|
      invariant 0 <= i <= |chain|
      invariant elasticity == RhtElasticity - i
      invariant key.Some? ==> forall j :: 0 <= j < i ==> chain[j].key != key.value
    {
      elasticity := elasticity - 1;
      if key.Some? && chain[i].key == key.value {
        found := Some(i);
        return;
      }
      i := i + 1;
    }
    found := None;
  }

  /** The chain walk of a remove or a replace: the position of the object. */
  method WalkObj(chain: seq<Obj>, obj: Obj) returns (pos: Option<nat>)
    ensures pos == Position(chain, obj)
  {
    var i := 0;
    while i < |chain|
      invariant 0 <= i <= |chain|
      invariant forall j :: 0 <= j < i ==> chain[j] != obj
    {
      if chain[i] == obj {
        PositionFirst(chain, obj, i);
        return Some(i);
      }
      i := i + 1;
    }
    pos := None;
  }

  lemma PositionFirst(chain: seq<Obj>, obj: Obj, i: nat)
    requires i < |chain| && chain[i] == obj
    requires forall j :: 0 <= j < i ==> chain[j] != obj
    ensures Position(chain, obj) == Some(i)
  {
    var p := Position(chain, obj);
    assert p.Some?;
  }

  // ---------------------------------------------------------------
  // The table
  // ---------------------------------------------------------------

  /** What __rhashtable_insert_fast hands back: NULL for a linked object,
    * the object already there under the key, an error, or the caller
    * sent to rhashtable_insert_slow. */
  datatype InsertOutcome = Linked | Clash(existing: Obj) | Failed(err: int) | SlowPath

  /** The return of rhashtable_insert_fast, rhashtable_lookup_insert_fast
    * and rhashtable_lookup_insert_key: 0, -EEXIST or the error; None when
    * the slow path decides. */
  function InsertErrno(o: InsertOutcome): (r: Option<int>)
    requires o.Failed? ==> o.err < 0
    ensures r == Some(0) <==> o.Linked?
    ensures r.Some? && r.value != 0 ==> r.value < 0
    ensures r == Some(-EEXIST) <==> o.Clash? || o == Failed(-EEXIST)
    ensures r.None? <==> o.SlowPath?
  {
    match o
    case Linked => Some(0)
    case Clash(_) => Some(-EEXIST)
    case Failed(e) => Some(e)
    case SlowPath => None
  }

  /** Every object sits in the chain of its key's bucket. */
  predicate Placed(chains: seq<seq<Obj>>, hashFn: seq<bv8> -> nat)
  {
    forall b, i :: 0 <= b < |chains| && 0 <= i < |chains[b]| ==> BucketIndex(hashFn(chains[b][i].key), |chains|) == b
  }

  /** A chain whose objects all belong to bucket b may replace chain b. */
  lemma PlacedUpdate(chains: seq<seq<Obj>>, hashFn: seq<bv8> -> nat, b: nat, chain: seq<Obj>)
    requires Placed(chains, hashFn) && b < |chains|
    requires forall i :: 0 <= i < |chain| ==> BucketIndex(hashFn(chain[i].key), |chains|) == b
    ensures Placed(chains[b := chain], hashFn)
  {
  }

  /** A bucket table with the counters of its rhashtable. */
  class HashTable {
    /** tbl->size, the number of buckets. */
    const size: nat
    /** The hash of a key, with the table's random seed folded in. */
    const hashFn: seq<bv8> -> nat
    /** ht->p.max_size (0 for no limit), ht->p.min_size, ht->max_elems. */
    const maxSize: nat
    const minSize: nat
    const maxElems: nat
    /** ht->p.automatic_shrinking. */
    const automaticShrinking: bool
    /** tbl->buckets, the chain of each bucket. */
    const buckets: array<seq<Obj>>
    /** ht->nelems. */
    var nelems: nat
    /** Whether ht->run_work has been scheduled to resize the table. */
    var resizeScheduled: bool

    /** The bucket of an object: the bucket index of its key's hash. */
    function BucketOf(key: seq<bv8>): (r: nat)
      requires size > 0
      ensures r < size
    {
      BucketIndex(hashFn(key), size)
    }

    /** The table's shape: a power-of-two number of buckets, every object
      * in the bucket of its key, and nelems counting the objects. */
    predicate Valid()
      reads this, buckets
    {
      buckets.Length == size && IsPow2(size) &&
      Placed(buckets[..], hashFn) && nelems == Count(buckets[..])
    }

    /** An empty table: every bucket head is a nulls marker. */
    constructor(size: nat, hashFn: seq<bv8> -> nat, maxSize: nat, minSize: nat, maxElems: nat,
                automaticShrinking: bool)
      requires IsPow2(size)
      ensures Valid()
      ensures this.size == size && this.hashFn == hashFn && this.maxSize == maxSize
      ensures this.minSize == minSize && this.maxElems == maxElems
      ensures this.automaticShrinking == automaticShrinking
      ensures forall b :: 0 <= b < size ==> buckets[b] == []
      ensures nelems == 0 && !resizeScheduled
      ensures fresh(buckets)
    {
      this.size := size;
      this.hashFn := hashFn;
      this.maxSize := maxSize;
      this.minSize := minSize;
      this.maxElems := maxElems;
      this.automaticShrinking := automaticShrinking;
      var bs := new seq<Obj>[size](_ => []);
      this.buckets := bs;
      CountEmpty(bs[..]);
      assert Placed(bs[..], hashFn);
      nelems := 0;
      resizeScheduled := false;
    }

    /** __rhashtable_lookup: walks the chain of the key's bucket; the
      * first object with the key, or none when the table holds none. */
    method Lookup(key: seq<bv8>) returns (r: Option<Obj>)
      requires Valid()
      ensures r.Some? ==> r.value.key == key && r.value in buckets[BucketOf(key)]
      ensures r.Some? ==> FirstKey(buckets[BucketOf(key)], key) == Position(buckets[BucketOf(key)], r.value)
      ensures r.None? ==> forall b, i :: 0 <= b < buckets.Length && 0 <= i < |buckets[b]| ==> buckets[b][i].key != key
    {
      var b := BucketOf(key);
      var chain := buckets[b];
      var found, _ := WalkKey(chain, Some(key));
      if found.Some? {
        r := Some(chain[found.value]);
        PositionFirst(chain, chain[found.value], found.value);
      } else {
        r := None;
      }
    }

    /** __rhashtable_insert_fast on a table without nested buckets, for a
      * plain rhashtable: with a key, an object of that key already in the
      * chain is handed back; otherwise a chain of RHT_ELASTICITY objects,
      * or a table over 100% full, goes to the slow path, a full table
      * fails with -E2BIG, and the object is linked at the end of its
      * chain, nelems goes up and a table over 75% full is set to grow. */
    method InsertFast(obj: Obj, key: Option<seq<bv8>>, resizing: bool) returns (r: InsertOutcome)
      requires Valid()
      requires key.Some? ==> key.value == obj.key
      modifies this, buckets
      ensures Valid()
      ensures var chain := old(buckets[BucketOf(obj.key)]);
              var clash := key.Some? && FirstKey(chain, obj.key).Some?;
              (resizing ==> r == SlowPath) &&
              (r.Clash? <==> !resizing && clash) &&
              (r.Clash? ==> r.existing == chain[FirstKey(chain, obj.key).value]) &&
              (r.Failed? <==> !resizing && !clash && |chain| < RhtElasticity && old(nelems) >= maxElems) &&
              (r.Failed? ==> r.err == -E2BIG) &&
              (r.Linked? <==> !resizing && !clash && |chain| < RhtElasticity && old(nelems) < maxElems &&
                              !GrowAbove100(old(nelems), size, maxSize))
      ensures r.Linked? ==> buckets[..] == old(buckets[..])[BucketOf(obj.key) := old(buckets[BucketOf(obj.key)]) + [obj]]
      ensures r.Linked? ==> nelems == old(nelems) + 1
      ensures r.Linked? ==> resizeScheduled == (old(resizeScheduled) || GrowAbove75(nelems, size, maxSize))
      ensures !r.Linked? ==> buckets[..] == old(buckets[..]) && nelems == old(nelems)
      ensures !r.Linked? ==> resizeScheduled == old(resizeScheduled)
    {
      if resizing {
        return SlowPath;
      }
      var b := BucketOf(obj.key);
      var chain := buckets[b];
      var found, elasticity := WalkKey(chain, key);
      if found.Some? {
        return Clash(chain[found.value]);
      }
      if elasticity <= 0 {
        return SlowPath;
      }
      if GrowAboveMax(nelems, maxElems) {
        return Failed(-E2BIG);
      }
      if GrowAbove100(nelems, size, maxSize) {
        return SlowPath;
      }
      CountUpdate(buckets[..], b, chain + [obj]);
      PlacedUpdate(buckets[..], hashFn, b, chain + [obj]);
      buckets[b] := chain + [obj];
      nelems := nelems + 1;
      if GrowAbove75(nelems, size, maxSize) {
        resizeScheduled := true;
      }
      r := Linked;
    }

    /** rhashtable_insert_fast: the insert without a key, which never
      * compares keys, so it never reports an existing object itself. */
    method InsertFastErrno(obj: Obj, resizing: bool) returns (err: Option<int>)
      requires Valid()
      modifies this, buckets
      ensures Valid()
      ensures err != Some(-EEXIST)
      ensures err == Some(0) ==> buckets[..] == old(buckets[..])[BucketOf(obj.key) := old(buckets[BucketOf(obj.key)]) + [obj]]
      ensures err == Some(0) ==> nelems == old(nelems) + 1
      ensures err != Some(0) ==> buckets[..] == old(buckets[..]) && nelems == old(nelems)
    {
      var r := InsertFast(obj, None, resizing);
      err := InsertErrno(r);
    }

    /** rhashtable_lookup_insert_fast: the insert keyed by the object's
      * own key; -EEXIST exactly when an object of that key is in its
      * chain. */
    method LookupInsertFast(obj: Obj, resizing: bool) returns (err: Option<int>)
      requires Valid()
      modifies this, buckets
      ensures Valid()
      ensures err == Some(-EEXIST) <==> !resizing && FirstKey(old(buckets[BucketOf(obj.key)]), obj.key).Some?
      ensures err == Some(0) ==> buckets[..] == old(buckets[..])[BucketOf(obj.key) := old(buckets[BucketOf(obj.key)]) + [obj]]
      ensures err == Some(0) ==> nelems == old(nelems) + 1
      ensures err != Some(0) ==> buckets[..] == old(buckets[..]) && nelems == old(nelems)
    {
      var r := InsertFast(obj, Some(obj.key), resizing);
      err := InsertErrno(r);
    }

    /** __rhashtable_remove_fast_one for a plain rhashtable: walks the
      * object's chain; when the object is there it is unlinked, nelems
      * goes down and a shrinking table below 30% is set to shrink, with
      * 0 returned; otherwise -ENOENT and nothing changes. */
    method RemoveFastOne(obj: Obj) returns (err: int)
      requires Valid()
      modifies this, buckets
      ensures Valid()
      ensures err == 0 <==> obj in old(buckets[BucketOf(obj.key)])
      ensures err != 0 ==> err == -ENOENT
      ensures var chain := old(buckets[BucketOf(obj.key)]);
              err == 0 ==> buckets[..] == old(buckets[..])[BucketOf(obj.key) := Unlink(chain, Position(chain, obj).value)]
      ensures err == 0 ==> nelems == old(nelems) - 1
      ensures err == 0 ==> resizeScheduled == (old(resizeScheduled) ||
                                               (automaticShrinking && ShrinkBelow30(nelems, size, minSize)))
      ensures err != 0 ==> buckets[..] == old(buckets[..]) && nelems == old(nelems)
      ensures err != 0 ==> resizeScheduled == old(resizeScheduled)
    {
      var b := BucketOf(obj.key);
      var chain := buckets[b];
      var pos := WalkObj(chain, obj);
      if pos.None? {
        return -ENOENT;
      }
      var rest := Unlink(chain, pos.value);
      CountUpdate(buckets[..], b, rest);
      PlacedUpdate(buckets[..], hashFn, b, rest);
      buckets[b] := rest;
      nelems := nelems - 1;
      if automaticShrinking && ShrinkBelow30(nelems, size, minSize) {
        resizeScheduled := true;
      }
      err := 0;
    }

    /** __rhashtable_replace_fast: -EINVAL when the two objects fall in
      * different buckets, -ENOENT when the old object is not in its
      * chain, otherwise the new object takes its place; nelems and the
      * resize work are never touched. */
    method ReplaceFast(oldObj: Obj, newObj: Obj) returns (err: int)
      requires Valid()
      modifies buckets
      ensures Valid()
      ensures BucketOf(oldObj.key) != BucketOf(newObj.key) ==> err == -EINVAL
      ensures err == 0 <==> BucketOf(oldObj.key) == BucketOf(newObj.key) && oldObj in old(buckets[BucketOf(oldObj.key)])
      ensures err != 0 ==> err == -EINVAL || err == -ENOENT
      ensures var chain := old(buckets[BucketOf(oldObj.key)]);
              err == 0 ==> buckets[..] == old(buckets[..])[BucketOf(oldObj.key) := chain[Position(chain, oldObj).value := newObj]]
      ensures err != 0 ==> buckets[..] == old(buckets[..])
    {
      var b := BucketOf(oldObj.key);
      if b != BucketOf(newObj.key) {
        return -EINVAL;
      }
      var chain := buckets[b];
      var pos := WalkObj(chain, oldObj);
      if pos.None? {
        return -ENOENT;
      }
      var swapped := chain[pos.value := newObj];
      CountUpdate(buckets[..], b, swapped);
      PlacedUpdate(buckets[..], hashFn, b, swapped);
      buckets[b] := swapped;
      err := 0;
    }
  }
}

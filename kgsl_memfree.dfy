/**
 * The recently-freed ring of drivers/gpu/msm/kgsl.c: the last
 * MEMFREE_ENTRIES GPU frees are recorded so that a page fault can be
 * reported as a use after free. kgsl_memfree_add writes at head,
 * kgsl_memfree_find_entry walks backwards from head, and
 * kgsl_memfree_purge trims entries a new allocation reuses.
 *
 * The list is a fixed-size array (NULL until allocated); gpu addresses and
 * sizes are u64, and their sums wrap as u64 sums do. The spinlock is not
 * modelled.
 */
module KgslMemfree {
  import opened Wrappers

  const MemfreeEntries: int := 512

  /** struct memfree_entry. */
  datatype MemfreeEntry = MemfreeEntry(ptname: int, gpuaddr: nat, size: nat, pid: int, flags: nat)

  /** A zeroed slot, as kcalloc leaves it. */
  const ZeroEntry: MemfreeEntry := MemfreeEntry(0, 0, 0, 0, 0)

  /** u64 addition. */
  function Add64(a: nat, b: nat): (r: nat)
    ensures r < U64
    ensures a + b < U64 ==> r == a + b
  {
    (a + b) % U64
  }

  /** match_memfree_addr: same pagetable, a live entry, and the address
    * inside [gpuaddr, gpuaddr + size). */
  predicate MatchMemfreeAddr(e: MemfreeEntry, ptname: int, gpuaddr: nat) {
    e.ptname == ptname && e.size > 0 && gpuaddr >= e.gpuaddr && gpuaddr < Add64(e.gpuaddr, e.size)
  }

  // ---------------------------------------------------------------
  // The backward walk
  // ---------------------------------------------------------------

  /** The slot the i-th step of a walk backwards from head visits. */
  function WalkSlot(head: int, i: int): (r: int)
    ensures 0 <= r < MemfreeEntries
  {
    (head - 1 - i) % MemfreeEntries
  }

  /** The number of slots kgsl_memfree_find_entry visits before its
    * pointer reaches tail: head - 1 down to tail + 1. */
  function FindLength(head: int, tail: int): (r: nat)
    ensures r < MemfreeEntries
  {
    (head - 1 - tail) % MemfreeEntries
  }

  /** The number of slots holding recorded frees: tail up to head - 1. */
  function LiveLength(head: int, tail: int): (r: nat)
    ensures r < MemfreeEntries
  {
    (head - tail) % MemfreeEntries
  }

  lemma WalkReachesTail(head: int, tail: int, i: int)
    requires 0 <= head < MemfreeEntries && 0 <= tail < MemfreeEntries
    requires 0 <= i <= FindLength(head, tail)
    ensures WalkSlot(head, i) == tail <==> i == FindLength(head, tail)
  {
  }

  lemma WalkStep(head: int, i: int)
    requires 0 <= head < MemfreeEntries && 0 <= i
    ensures WalkSlot(head, i + 1) == if WalkSlot(head, i) == 0 then MemfreeEntries - 1 else WalkSlot(head, i) - 1
  {
  }

  /** The pointer of the corrected walk after i steps back from head. */
  function LivePtr(head: int, i: int): (r: int)
    ensures 0 <= r < MemfreeEntries
  {
    (head - i) % MemfreeEntries
  }

  lemma LiveReachesTail(head: int, tail: int, i: int)
    requires 0 <= head < MemfreeEntries && 0 <= tail < MemfreeEntries
    requires 0 <= i <= LiveLength(head, tail)
    ensures LivePtr(head, i) == tail <==> i == LiveLength(head, tail)
  {
  }

  lemma LiveStep(head: int, i: int)
    requires 0 <= head < MemfreeEntries && 0 <= i
    ensures LivePtr(head, i + 1) == if LivePtr(head, i) == 0 then MemfreeEntries - 1 else LivePtr(head, i) - 1
    ensures WalkSlot(head, i) == LivePtr(head, i + 1)
  {
  }

  /** The walk visits every live slot except the one at tail, the oldest. */
  lemma FindSkipsTail(head: int, tail: int)
    requires 0 <= head < MemfreeEntries && 0 <= tail < MemfreeEntries && head != tail
    ensures FindLength(head, tail) + 1 == LiveLength(head, tail)
    ensures WalkSlot(head, LiveLength(head, tail) - 1) == tail
  {
  }

  /** The first step in [0, n) of the walk from head whose slot matches. */
  ghost predicate FirstMatchAt(s: seq<MemfreeEntry>, head: int, n: int, ptname: int, gpuaddr: nat, i: int)
    requires |s| == MemfreeEntries
  {
    0 <= i < n && MatchMemfreeAddr(s[WalkSlot(head, i)], ptname, gpuaddr) &&
    forall j :: 0 <= j < i ==> !MatchMemfreeAddr(s[WalkSlot(head, j)], ptname, gpuaddr)
  }

  /** The outcome of a walk of n steps: the first matching entry, newest
    * first, or nothing. */
  ghost predicate WalkFound(s: seq<MemfreeEntry>, head: int, n: int, ptname: int, gpuaddr: nat,
                      found: bool, e: MemfreeEntry)
    requires |s| == MemfreeEntries
  {
    if found then exists i :: FirstMatchAt(s, head, n, ptname, gpuaddr, i) && e == s[WalkSlot(head, i)]
    else forall i :: 0 <= i < n ==> !MatchMemfreeAddr(s[WalkSlot(head, i)], ptname, gpuaddr)
  }

  class Memfree {
    var list: array?<MemfreeEntry>
    var head: int
    var tail: int

    predicate Valid()
      reads this
    {
      (list != null ==> list.Length == MemfreeEntries) &&
      0 <= head < MemfreeEntries && 0 <= tail < MemfreeEntries
    }

    /** The ring as kgsl_core_init leaves it: zeroed slots, or no list
      * when the allocation failed. */
    constructor (withList: bool)
      ensures Valid() && head == 0 && tail == 0
      ensures withList <==> list != null
      ensures list != null ==> fresh(list) && forall i :: 0 <= i < list.Length ==> list[i] == ZeroEntry
    {
      if withList {
        list := new MemfreeEntry[MemfreeEntries](_ => ZeroEntry);
      } else {
        list := null;
      }
      head := 0;
      tail := 0;
    }

    /** kgsl_memfree_add: record a free at head, advance head, and push
      * tail along when head catches up with it. */
    method Add(pid: int, ptname: int, gpuaddr: nat, size: nat, flags: nat)
      requires Valid()
      modifies this, list
      ensures Valid() && list == old(list)
      ensures list == null ==> head == old(head) && tail == old(tail)
      ensures list != null ==>
        list[..] == old(list[..])[old(head) := MemfreeEntry(ptname, gpuaddr, size, pid, flags)]
      ensures list != null ==> head == (old(head) + 1) % MemfreeEntries
      ensures list != null ==>
        tail == if head == old(tail) then (old(tail) + 1) % MemfreeEntries else old(tail)
      ensures list != null ==> head != tail && WalkSlot(head, 0) == old(head)
    {
      if list == null {
        return;
      }
      list[head] := MemfreeEntry(ptname, gpuaddr, size, pid, flags);
      head := (head + 1) % MemfreeEntries;
      if head == tail {
        tail := (tail + 1) % MemfreeEntries;
      }
    }

    /** kgsl_memfree_find_entry: walk from head - 1 backwards while the
      * pointer differs from tail and report the first match, that is the
      * most recent matching free among the slots visited. */
    method FindEntry(ptname: int, gpuaddr: nat) returns (found: bool, e: MemfreeEntry)
      requires Valid()
      ensures list == null ==> !found
      ensures list != null ==> WalkFound(list[..], head, FindLength(head, tail), ptname, gpuaddr, found, e)
    {
      found, e := false, ZeroEntry;
      if list == null {
        return;
      }
      var ptr := head - 1;
      if ptr < 0 {
        ptr := MemfreeEntries - 1;
      }
      var i := 0;
      while ptr != tail
        invariant 0 <= i <= FindLength(head, tail)
        invariant ptr == WalkSlot(head, i)
        invariant forall j :: 0 <= j < i ==> !MatchMemfreeAddr(list[WalkSlot(head, j)], ptname, gpuaddr)
        decreases FindLength(head, tail) - i
      {
        WalkReachesTail(head, tail, i);
        var entry := list[ptr];
        if MatchMemfreeAddr(entry, ptname, gpuaddr) {
          assert FirstMatchAt(list[..], head, FindLength(head, tail), ptname, gpuaddr, i);
          return true, entry;
        }
        WalkStep(head, i);
        ptr := ptr - 1;
        if ptr < 0 {
          ptr := MemfreeEntries - 1;
        }
        i := i + 1;
      }
      WalkReachesTail(head, tail, i);
    }

    /** The walk as evidently intended: down to and including tail, so
      * every recorded free is examined. */
    method FindEntryLive(ptname: int, gpuaddr: nat) returns (found: bool, e: MemfreeEntry)
      requires Valid()
      ensures list == null ==> !found
      ensures list != null ==> WalkFound(list[..], head, LiveLength(head, tail), ptname, gpuaddr, found, e)
    {
      found, e := false, ZeroEntry;
      if list == null {
        return;
      }
      var ptr := head;
      var i := 0;
      while ptr != tail
        invariant 0 <= i <= LiveLength(head, tail)
        invariant ptr == LivePtr(head, i)
        invariant forall j :: 0 <= j < i ==> !MatchMemfreeAddr(list[WalkSlot(head, j)], ptname, gpuaddr)
        decreases LiveLength(head, tail) - i
      {
        LiveReachesTail(head, tail, i);
        LiveStep(head, i);
        ptr := ptr - 1;
        if ptr < 0 {
          ptr := MemfreeEntries - 1;
        }
        var entry := list[ptr];
        if MatchMemfreeAddr(entry, ptname, gpuaddr) {
          assert FirstMatchAt(list[..], head, LiveLength(head, tail), ptname, gpuaddr, i);
          return true, entry;
        }
        i := i + 1;
      }
      LiveReachesTail(head, tail, i);
    }

    /** kgsl_memfree_purge: every slot is passed through the per-entry
      * trim, here the corrected PurgeEntryFixed. */
    method Purge(pagetable: Option<int>, gpuaddr: nat, size: nat)
      requires Valid()
      modifies list
      ensures list != null ==> forall i :: 0 <= i < MemfreeEntries ==>
        list[i] == PurgeEntryFixed(old(list[i]), PtName(pagetable), gpuaddr, size)
    {
      if list == null {
        return;
      }
      var ptname := PtName(pagetable);
      for i := 0 to MemfreeEntries
        invariant forall j :: 0 <= j < i ==> list[j] == PurgeEntryFixed(old(list[j]), ptname, gpuaddr, size)
        invariant forall j :: i <= j < MemfreeEntries ==> list[j] == old(list[j])
      {
        list[i] := PurgeEntryFixed(list[i], ptname, gpuaddr, size);
      }
    }
  }

  /** The pagetable name a purge matches: 0 for a NULL pagetable. */
  function PtName(pagetable: Option<int>): int {
    match pagetable
    case None => 0
    case Some(name) => name
  }

  // ---------------------------------------------------------------
  // Purging one entry
  // ---------------------------------------------------------------

  /** One iteration of kgsl_memfree_purge, as written: an entry of the
    * pagetable that the freed range [gpuaddr, gpuaddr + size) reaches
    * into is cut at its end, moved up at its start (keeping its size),
    * or emptied. */
  function PurgeEntry(e: MemfreeEntry, ptname: int, gpuaddr: nat, size: nat): (r: MemfreeEntry)
    ensures r.ptname == e.ptname && r.pid == e.pid && r.flags == e.flags
    ensures e.ptname != ptname || e.size == 0 ==> r == e
  {
    if e.ptname != ptname || e.size == 0 then e
    else if gpuaddr > e.gpuaddr && gpuaddr < Add64(e.gpuaddr, e.size) then
      e.(size := gpuaddr - e.gpuaddr)
    else if gpuaddr <= e.gpuaddr then
      if Add64(gpuaddr, size) > e.gpuaddr && Add64(gpuaddr, size) < Add64(e.gpuaddr, e.size) then
        e.(gpuaddr := Add64(gpuaddr, size))
      else if Add64(gpuaddr, size) >= Add64(e.gpuaddr, e.size) then
        e.(size := 0)
      else e
    else e
  }

  /** The same iteration with the start truncation also shortening the
    * entry, so the entry only ever shrinks. */
  function PurgeEntryFixed(e: MemfreeEntry, ptname: int, gpuaddr: nat, size: nat): (r: MemfreeEntry)
    ensures r.ptname == e.ptname && r.pid == e.pid && r.flags == e.flags
    ensures e.ptname != ptname || e.size == 0 ==> r == e
  {
    if e.ptname != ptname || e.size == 0 then e
    else if gpuaddr > e.gpuaddr && gpuaddr < Add64(e.gpuaddr, e.size) then
      e.(size := gpuaddr - e.gpuaddr)
    else if gpuaddr <= e.gpuaddr then
      if Add64(gpuaddr, size) > e.gpuaddr && Add64(gpuaddr, size) < Add64(e.gpuaddr, e.size) then
        e.(gpuaddr := Add64(gpuaddr, size), size := e.gpuaddr + e.size - Add64(gpuaddr, size))
      else if Add64(gpuaddr, size) >= Add64(e.gpuaddr, e.size) then
        e.(size := 0)
      else e
    else e
  }

  /** Address a lies in the entry's range. */
  predicate Covers(e: MemfreeEntry, a: nat) {
    e.gpuaddr <= a < e.gpuaddr + e.size
  }

  /** With no u64 wrap-around, the corrected purge only removes addresses:
    * every address the new entry covers was covered before. Addresses the
    * freed range reaches below the first address it leaves are dropped. */
  lemma PurgeFixedShrinks(e: MemfreeEntry, ptname: int, gpuaddr: nat, size: nat, a: nat)
    requires e.gpuaddr + e.size < U64 && gpuaddr + size < U64
    ensures Covers(PurgeEntryFixed(e, ptname, gpuaddr, size), a) ==> Covers(e, a)
    ensures e.ptname == ptname && gpuaddr <= a < gpuaddr + size ==>
              !Covers(PurgeEntryFixed(e, ptname, gpuaddr, size), a)
  {
  }

  /** The purge as written moves the start of [0x1000, 0x3000) up to
    * 0x2000 when [0x1000, 0x2000) is freed but keeps the size 0x2000: the
    * entry now claims 0x3800, which was never freed, and a fault there
    * would be matched against it. */
  lemma PurgeGrowsEntry()
    ensures var e := MemfreeEntry(1, 0x1000, 0x2000, 7, 0);
            var r := PurgeEntry(e, 1, 0x1000, 0x1000);
            !Covers(e, 0x3800) && Covers(r, 0x3800) && MatchMemfreeAddr(r, 1, 0x3800)
  {
  }

  /** After one free on a fresh ring the find walk visits no slot, so that
    * free is never reported; the corrected walk visits it. */
  lemma FirstFreeMissed()
    ensures FindLength(1, 0) == 0 && LiveLength(1, 0) == 1 && WalkSlot(1, 0) == 0
  {
  }
}

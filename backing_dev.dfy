/**
 * The backing-device bookkeeping of mm/backing-dev.c: the read_ahead_kb
 * sysfs attribute (its "temporary " store and its show), the write
 * congestion bits of each congested object and the two global counters
 * of congested objects, the reference-counted table of congested objects
 * keyed by block-cgroup id (wb_congested_get_create, wb_congested_put,
 * cgwb_bdi_exit), the defaults wb_init and bdi_init write, and the
 * uncongested path of wait_iff_congested.
 *
 * The model follows the CONFIG_CGROUP_WRITEBACK build on a 64-bit machine
 * with 4 KiB pages. One backing device is modelled, and the objects it
 * ever allocated are a sequence indexed by a handle that stands for the
 * pointer; a freed object stays in the sequence, marked freed. The
 * red-black tree is a map from blkcg id to handle. Whether an allocation
 * succeeds, the jiffies counter and the time io_schedule_timeout leaves
 * are inputs.
 */
module BackingDev {
  import opened Wrappers

  const PageShift: nat := 12
  /** INIT_BW: 100 MiB/s expressed in pages per second. */
  const InitBw: nat := 100 * 256
  /** FPROP_FRAC_BASE of include/linux/flex_proportions.h. */
  const FpropFracBase: nat := 1024
  /** The cgroup id bdi_init gives the root writeback. */
  const RootBlkcgId: int := 1
  /** long's range. */
  const S64Max: int := 0x7fff_ffff_ffff_ffff

  // ---------------------------------------------------------------
  // kstrtoul(s, 10, &v) on a 64-bit machine
  // ---------------------------------------------------------------

  predicate IsDigit(c: char) { '0' <= c <= '9' }

  /** The digits _parse_integer consumes: the longest prefix of decimal
    * digits. */
  function LeadingDigits(s: seq<char>): (r: seq<char>)
    ensures r <= s && forall i :: 0 <= i < |r| ==> IsDigit(r[i])
    ensures |r| < |s| ==> !IsDigit(s[|r|])
  {
    if |s| > 0 && IsDigit(s[0]) then [s[0]] + LeadingDigits(s[1..]) else []
  }

  /** What kstrtoul reports: the number, or a negative error. */
  datatype Parsed = Ok(value: nat) | Err(errno: int)

  /**
    * kstrtoul with base 10: an optional '+', at least one digit, then
    * nothing or a single newline. A value of 2^64 or more is -ERANGE,
    * reported before the trailing text is looked at; anything else that
    * does not fit the shape is -EINVAL. The text is what precedes the
    * string's NUL.
    */
  function KStrToUl(s: seq<char>): (r: Parsed)
    ensures r.Ok? ==> r.value < U64
    ensures r.Err? ==> r.errno == -EINVAL || r.errno == -ERANGE
    ensures r.Ok? ==> |s| > 0 && (IsDigit(s[0]) || s[0] == '+')
    ensures r.Ok? ==> IsDigit(s[|s| - 1]) || s[|s| - 1] == '\n'
  {
    var t := if |s| > 0 && s[0] == '+' then s[1..] else s;
    var d := LeadingDigits(t);
    if |d| > 0 && DigitsValue(d) >= U64 then Err(-ERANGE)
    else if |d| == 0 then Err(-EINVAL)
    else if t[|d|..] == [] || t[|d|..] == "\n" then Ok(DigitsValue(d))
    else Err(-EINVAL)
  }

  /** A digit string followed by text that does not start with a digit is
    * read up to its end. */
  lemma {:induction false} LeadingDigitsOfDigits(d: seq<char>, tail: seq<char>)
    requires forall i :: 0 <= i < |d| ==> IsDigit(d[i])
    requires |tail| > 0 ==> !IsDigit(tail[0])
    ensures LeadingDigits(d + tail) == d
  {
    if |d| > 0 {
      assert (d + tail)[1..] == d[1..] + tail;
      LeadingDigitsOfDigits(d[1..], tail);
    } else {
      assert d + tail == tail;
    }
  }

  /** kstrtoul reads back what "%lu" (or "%lld" of a non-negative value)
    * writes, with or without the newline. */
  lemma KStrToUlDecimal(n: nat, tail: seq<char>)
    requires n < U64
    requires tail == [] || tail == "\n"
    ensures KStrToUl(Decimal(n) + tail) == Ok(n)
  {
    var s := Decimal(n) + tail;
    assert s[0] == Decimal(n)[0];
    LeadingDigitsOfDigits(Decimal(n), tail);
    DecimalValue(n);
    assert s[|Decimal(n)|..] == tail;
  }

  /** A value that does not fit in 64 bits is -ERANGE, whatever follows. */
  lemma KStrToUlOverflow(d: seq<char>, tail: seq<char>)
    requires |d| > 0 && forall i :: 0 <= i < |d| ==> '0' <= d[i] <= '9'
    requires |tail| > 0 ==> !IsDigit(tail[0])
    requires DigitsValue(d) >= U64
    ensures KStrToUl(d + tail) == Err(-ERANGE)
  {
    assert (d + tail)[0] == d[0];
    LeadingDigitsOfDigits(d, tail);
  }

  /** Text after the number other than one newline is -EINVAL. */
  lemma KStrToUlTrailing(n: nat, tail: seq<char>)
    requires n < U64
    requires |tail| > 0 && !IsDigit(tail[0]) && tail != "\n"
    ensures KStrToUl(Decimal(n) + tail) == Err(-EINVAL)
  {
    var s := Decimal(n) + tail;
    assert s[0] == Decimal(n)[0];
    LeadingDigitsOfDigits(Decimal(n), tail);
    DecimalValue(n);
    assert s[|Decimal(n)|..] == tail;
  }

  // ---------------------------------------------------------------
  // read_ahead_kb show
  // ---------------------------------------------------------------

  /** "%lld": an optional minus sign and the decimal digits. */
  function SignedDecimal(v: int): (r: seq<char>)
    ensures |r| > 0
  {
    if v < 0 then "-" + Decimal(-v) else Decimal(v)
  }

  /** K(pages): the page count in KiB, shifted in an unsigned long. */
  function PagesToKb(pages: nat): (r: nat)
    requires pages < U64
    ensures r < U64
    ensures pages < 0x4000_0000_0000_0000 ==> r == 4 * pages
  {
    (pages * 4) % U64
  }

  /** read_ahead_kb_show: "%lld\n" of (long long)K(ra_pages). */
  function ReadAheadKbShow(raPages: nat): (r: seq<char>)
    requires raPages < U64
    ensures |r| >= 2 && r[|r| - 1] == '\n'
    ensures 4 * raPages <= S64Max ==> r == Decimal(4 * raPages) + "\n"
    ensures S64Max < 4 * raPages < U64 ==> r[0] == '-'
  {
    SignedDecimal(ToS64(PagesToKb(raPages))) + "\n"
  }

  /** The text read_ahead_kb_store looks for. */
  const Temporary: seq<char> := "temporary "

  /** Storing "temporary " followed by the shown value sets ra_pages back
    * to what it was. */
  lemma ShowThenStore(raPages: nat)
    requires 4 * raPages <= S64Max
    ensures var buf := Temporary + ReadAheadKbShow(raPages);
            Temporary <= buf && KStrToUl(buf[|Temporary|..]) == Ok(4 * raPages) &&
            (4 * raPages) / 4 == raPages
  {
    var buf := Temporary + ReadAheadKbShow(raPages);
    assert buf[|Temporary|..] == Decimal(4 * raPages) + "\n";
    KStrToUlDecimal(4 * raPages, "\n");
  }

  /** Storing a KiB value and showing it gives the value rounded down to
    * whole pages. */
  lemma StoreThenShow(kb: nat)
    requires kb <= S64Max
    ensures ReadAheadKbShow(kb / 4) == Decimal(kb - kb % 4) + "\n"
  {
  }

  // ---------------------------------------------------------------
  // Congested objects and their counters
  // ---------------------------------------------------------------

  /** A bdi_writeback_congested: its cgroup id, reference count, whether it
    * is linked into the bdi's tree (__bdi != NULL), whether it has been
    * freed, and the two bits of its state word. */
  datatype Congested = Congested(blkcgId: int, refcnt: nat, linked: bool, freed: bool,
                                 asyncBit: bool, syncBit: bool)

  /** WB_sync_congested when sync is set, WB_async_congested otherwise. */
  function HasBit(c: Congested, sync: bool): bool {
    if sync then c.syncBit else c.asyncBit
  }

  function WithBit(c: Congested, sync: bool, v: bool): (r: Congested)
    ensures HasBit(r, sync) == v && HasBit(r, !sync) == HasBit(c, !sync)
    ensures r.blkcgId == c.blkcgId && r.refcnt == c.refcnt && r.linked == c.linked && r.freed == c.freed
  {
    if sync then c.(syncBit := v) else c.(asyncBit := v)
  }

  /** The number of objects whose bit for `sync` is set. */
  function CountSet(objs: seq<Congested>, sync: bool): nat {
    if |objs| == 0 then 0
    else CountSet(objs[..|objs| - 1], sync) + (if HasBit(objs[|objs| - 1], sync) then 1 else 0)
  }

  /** Changing one object changes the count by that object's bit only. */
  lemma {:induction false} CountUpdate(objs: seq<Congested>, h: nat, c: Congested, sync: bool)
    requires h < |objs|
    ensures CountSet(objs[h := c], sync) + (if HasBit(objs[h], sync) then 1 else 0)
         == CountSet(objs, sync) + (if HasBit(c, sync) then 1 else 0)
  {
    var n := |objs| - 1;
    var u := objs[h := c];
    assert u[..n] == if h == n then objs[..n] else objs[..n][h := c];
    if h < n {
      CountUpdate(objs[..n], h, c, sync);
    }
  }

  /** A new object adds its own bit to the count. */
  lemma CountAppend(objs: seq<Congested>, c: Congested, sync: bool)
    ensures CountSet(objs + [c], sync) == CountSet(objs, sync) + (if HasBit(c, sync) then 1 else 0)
  {
    assert (objs + [c])[..|objs|] == objs;
  }

  /** The refcount, link and freed flags of an object do not enter the
    * count. */
  lemma CountIgnoresRefs(objs: seq<Congested>, h: nat, c: Congested, sync: bool)
    requires h < |objs| && HasBit(c, sync) == HasBit(objs[h], sync)
    ensures CountSet(objs[h := c], sync) == CountSet(objs, sync)
  {
    CountUpdate(objs, h, c, sync);
  }

  /** Both counts are unchanged by an update that keeps the two bits. */
  lemma CountsKept(objs: seq<Congested>, h: nat, c: Congested)
    requires h < |objs| && c.asyncBit == objs[h].asyncBit && c.syncBit == objs[h].syncBit
    ensures CountSet(objs[h := c], false) == CountSet(objs, false)
    ensures CountSet(objs[h := c], true) == CountSet(objs, true)
  {
    CountIgnoresRefs(objs, h, c, false);
    CountIgnoresRefs(objs, h, c, true);
  }

  /** A live object holds a reference; a freed one holds none and is not
    * in any tree. */
  predicate Sane(c: Congested) {
    (c.freed <==> c.refcnt == 0) && (c.freed ==> !c.linked)
  }

  /** The tree holds exactly the linked objects, each under its own id,
    * and every object is sane. */
  predicate TableOk(objs: seq<Congested>, tree: map<int, nat>) {
    (forall id :: id in tree ==>
       tree[id] < |objs| && objs[tree[id]].linked && objs[tree[id]].blkcgId == id) &&
    (forall h :: 0 <= h < |objs| && objs[h].linked ==>
       objs[h].blkcgId in tree && tree[objs[h].blkcgId] == h) &&
    (forall h :: 0 <= h < |objs| ==> Sane(objs[h]))
  }

  /** Updating an object without moving it in or out of the tree keeps
    * the table well formed. */
  lemma TableKeep(objs: seq<Congested>, tree: map<int, nat>, k: nat, c: Congested)
    requires TableOk(objs, tree) && k < |objs| && Sane(c)
    requires c.blkcgId == objs[k].blkcgId && c.linked == objs[k].linked
    ensures TableOk(objs[k := c], tree)
  {
  }

  /** Erasing a linked object's node and marking it unlinked keeps the
    * table well formed. */
  lemma TableUnlink(objs: seq<Congested>, tree: map<int, nat>, k: nat, c: Congested)
    requires TableOk(objs, tree) && k < |objs| && objs[k].linked
    requires Sane(c) && !c.linked && c.blkcgId == objs[k].blkcgId
    ensures TableOk(objs[k := c], tree - {objs[k].blkcgId})
  {
  }

  /** Linking a new object under an id not yet in the tree keeps the table
    * well formed. */
  lemma TableLink(objs: seq<Congested>, tree: map<int, nat>, c: Congested)
    requires TableOk(objs, tree) && c.blkcgId !in tree && c.linked && Sane(c)
    ensures TableOk(objs + [c], tree[c.blkcgId := |objs|])
  {
  }

  /** With no object linked, the tree is empty. */
  lemma TableEmpty(objs: seq<Congested>, tree: map<int, nat>)
    requires TableOk(objs, tree)
    requires forall h :: 0 <= h < |objs| ==> !objs[h].linked
    ensures tree == map[]
  {
    assert forall id :: id !in tree;
  }

  /** Taking a reference and putting it again leaves the objects as they
    * were. */
  lemma RefPutRestores(objs: seq<Congested>, k: nat)
    requires k < |objs|
    ensures var up := objs[k := objs[k].(refcnt := objs[k].refcnt + 1)];
            up[k := up[k].(refcnt := up[k].refcnt - 1)] == objs
  {
    var up := objs[k := objs[k].(refcnt := objs[k].refcnt + 1)];
    assert up[k].(refcnt := up[k].refcnt - 1) == objs[k];
  }

  /** A bdi_writeback as wb_init leaves it: the time stamps, the four
    * bandwidth estimates and the congested object it holds. */
  datatype Wb = Wb(lastOldFlush: int, bwTimeStamp: int, dirtySleep: int,
                   balancedDirtyRatelimit: nat, dirtyRatelimit: nat,
                   writeBandwidth: nat, avgWriteBandwidth: nat,
                   congested: Option<nat>)

  /** The zero-filled bdi_writeback. */
  const ZeroWb: Wb := Wb(0, 0, 0, 0, 0, 0, 0, None)

  /** The bandwidth estimates wb_init starts from. */
  predicate InitialBandwidth(w: Wb) {
    w.balancedDirtyRatelimit == InitBw && w.dirtyRatelimit == InitBw &&
    w.writeBandwidth == InitBw && w.avgWriteBandwidth == InitBw
  }

  class Bdi {
    var raPages: nat
    var minRatio: nat
    var maxRatio: nat
    var maxPropFrac: nat
    var lastThresh: nat
    var lastNrDirty: nat
    var pausedTotal: nat
    /** The kref of the backing_dev_info. */
    var refcnt: nat
    /** The embedded root writeback. */
    var wb: Wb
    /** Every congested object allocated, by handle. */
    var objs: seq<Congested>
    /** cgwb_congested_tree: blkcg id to handle. */
    var tree: map<int, nat>
    /** nr_wb_congested[BLK_RW_ASYNC] and nr_wb_congested[BLK_RW_SYNC]. */
    var nrWbCongested: seq<int>

    /** Each counter is the number of objects with that bit set, and the
      * table of congested objects is well formed. */
    predicate Valid()
      reads this
    {
      |nrWbCongested| == 2 &&
      nrWbCongested[0] == CountSet(objs, false) &&
      nrWbCongested[1] == CountSet(objs, true) &&
      raPages < U64 &&
      TableOk(objs, tree)
    }

    /** The zero-filled backing_dev_info bdi_alloc_node asks for. */
    constructor ()
      ensures Valid() && objs == [] && tree == map[] && nrWbCongested == [0, 0]
      ensures raPages == 0 && wb == ZeroWb
    {
      raPages, minRatio, maxRatio, maxPropFrac := 0, 0, 0, 0;
      lastThresh, lastNrDirty, pausedTotal, refcnt := 0, 0, 0, 0;
      wb := ZeroWb;
      objs, tree, nrWbCongested := [], map[], [0, 0];
    }

    /**
      * read_ahead_kb_store: text that does not start with "temporary " is
      * accepted and ignored; after it, a number kstrtoul rejects is its
      * error; a number of KiB becomes ra_pages = kb >> (PAGE_SHIFT - 10).
      */
    method ReadAheadKbStore(buf: seq<char>, count: int) returns (r: int)
      requires Valid()
      modifies this
      ensures Valid()
      ensures !(Temporary <= buf) ==> r == count && raPages == old(raPages)
      ensures Temporary <= buf && KStrToUl(buf[|Temporary|..]).Err? ==>
                r == KStrToUl(buf[|Temporary|..]).errno && r < 0 && raPages == old(raPages)
      ensures Temporary <= buf && KStrToUl(buf[|Temporary|..]).Ok? ==>
                r == count && raPages == KStrToUl(buf[|Temporary|..]).value / Pow2(PageShift - 10)
      ensures objs == old(objs) && tree == old(tree) && nrWbCongested == old(nrWbCongested)
      ensures wb == old(wb) && minRatio == old(minRatio) && maxRatio == old(maxRatio)
    {
      if !(Temporary <= buf) {
        return count;
      }
      var parsed := KStrToUl(buf[|Temporary|..]);
      if parsed.Err? {
        return parsed.errno;
      }
      raPages := parsed.value / 4;
      r := count;
    }

    /**
      * set_wb_congested: sets the object's bit for `sync` and counts the
      * object in nr_wb_congested[sync] only when the bit was clear.
      */
    method SetWbCongested(h: nat, sync: int)
      requires Valid() && h < |objs| && !objs[h].freed
      requires sync == 0 || sync == 1
      modifies this
      ensures Valid()
      ensures objs == old(objs)[h := WithBit(old(objs)[h], sync == 1, true)]
      ensures nrWbCongested == old(nrWbCongested)[sync :=
                old(nrWbCongested)[sync] + (if HasBit(old(objs)[h], sync == 1) then 0 else 1)]
      ensures tree == old(tree) && raPages == old(raPages) && wb == old(wb)
    {
      var s := sync == 1;
      var c := objs[h];
      var updated := objs[h := WithBit(c, s, true)];
      CountUpdate(objs, h, WithBit(c, s, true), s);
      CountIgnoresRefs(objs, h, WithBit(c, s, true), !s);
      TableKeep(objs, tree, h, WithBit(c, s, true));
      if !HasBit(c, s) {
        nrWbCongested := nrWbCongested[sync := nrWbCongested[sync] + 1];
      }
      objs := updated;
    }

    /**
      * clear_wb_congested: clears the object's bit for `sync` and uncounts
      * the object only when the bit was set.
      */
    method ClearWbCongested(h: nat, sync: int)
      requires Valid() && h < |objs| && !objs[h].freed
      requires sync == 0 || sync == 1
      modifies this
      ensures Valid()
      ensures objs == old(objs)[h := WithBit(old(objs)[h], sync == 1, false)]
      ensures nrWbCongested == old(nrWbCongested)[sync :=
                old(nrWbCongested)[sync] - (if HasBit(old(objs)[h], sync == 1) then 1 else 0)]
      ensures tree == old(tree) && raPages == old(raPages) && wb == old(wb)
    {
      var s := sync == 1;
      var c := objs[h];
      var updated := objs[h := WithBit(c, s, false)];
      CountUpdate(objs, h, WithBit(c, s, false), s);
      CountIgnoresRefs(objs, h, WithBit(c, s, false), !s);
      TableKeep(objs, tree, h, WithBit(c, s, false));
      if HasBit(c, s) {
        nrWbCongested := nrWbCongested[sync := nrWbCongested[sync] - 1];
      }
      objs := updated;
    }

    /**
      * wb_congested_get_create: the object already in the tree for the id
      * gains a reference; otherwise a new object with one reference is
      * linked in, or nothing changes and None is returned when the
      * allocation fails.
      */
    method GetCreate(blkcgId: int, allocOk: bool) returns (h: Option<nat>)
      requires Valid()
      modifies this
      ensures Valid()
      ensures blkcgId in old(tree) ==>
                h == Some(old(tree)[blkcgId]) && tree == old(tree) &&
                objs == old(objs)[h.value := old(objs)[h.value].(refcnt := old(objs)[h.value].refcnt + 1)]
      ensures blkcgId !in old(tree) && !allocOk ==>
                h.None? && tree == old(tree) && objs == old(objs)
      ensures blkcgId !in old(tree) && allocOk ==>
                h == Some(|old(objs)|) && tree == old(tree)[blkcgId := |old(objs)|] &&
                objs == old(objs) + [Congested(blkcgId, 1, true, false, false, false)]
      ensures h.Some? ==> h.value < |objs| && objs[h.value].blkcgId == blkcgId && !objs[h.value].freed
      ensures nrWbCongested == old(nrWbCongested) && raPages == old(raPages) && wb == old(wb)
      ensures unchanged(this`minRatio, this`maxRatio, this`maxPropFrac, this`refcnt, this`lastThresh, this`lastNrDirty, this`pausedTotal)
    {
      if blkcgId in tree {
        var k := tree[blkcgId];
        Ref(k);
        return Some(k);
      }
      if !allocOk {
        return None;
      }
      var k := Link(blkcgId);
      h := Some(k);
    }

    /** refcount_inc on an object found in the tree. */
    method Ref(k: nat)
      requires Valid() && k < |objs| && objs[k].linked
      modifies this
      ensures Valid()
      ensures objs == old(objs)[k := old(objs)[k].(refcnt := old(objs)[k].refcnt + 1)]
      ensures tree == old(tree) && nrWbCongested == old(nrWbCongested) && raPages == old(raPages) && wb == old(wb)
      ensures unchanged(this`minRatio, this`maxRatio, this`maxPropFrac, this`refcnt, this`lastThresh, this`lastNrDirty, this`pausedTotal)
    {
      var c := objs[k].(refcnt := objs[k].refcnt + 1);
      CountsKept(objs, k, c);
      TableKeep(objs, tree, k, c);
      objs := objs[k := c];
    }

    /** A fresh object with one reference, rb_link_node'd under its id. */
    method Link(blkcgId: int) returns (k: nat)
      requires Valid() && blkcgId !in tree
      modifies this
      ensures Valid()
      ensures k == |old(objs)| && objs == old(objs) + [Congested(blkcgId, 1, true, false, false, false)]
      ensures tree == old(tree)[blkcgId := k]
      ensures nrWbCongested == old(nrWbCongested) && raPages == old(raPages) && wb == old(wb)
      ensures unchanged(this`minRatio, this`maxRatio, this`maxPropFrac, this`refcnt, this`lastThresh, this`lastNrDirty, this`pausedTotal)
    {
      var c := Congested(blkcgId, 1, true, false, false, false);
      CountAppend(objs, c, false);
      CountAppend(objs, c, true);
      TableLink(objs, tree, c);
      k := |objs|;
      tree := tree[blkcgId := k];
      objs := objs + [c];
    }


    /**
      * wb_congested_put: drops a reference; the last one unlinks the
      * object from the tree, if it is still linked, and frees it.
      */
    method Put(h: nat)
      requires Valid() && h < |objs| && !objs[h].freed
      modifies this
      ensures Valid()
      ensures old(objs)[h].refcnt > 1 ==>
                objs == old(objs)[h := old(objs)[h].(refcnt := old(objs)[h].refcnt - 1)] && tree == old(tree)
      ensures old(objs)[h].refcnt == 1 ==>
                objs == old(objs)[h := old(objs)[h].(refcnt := 0, linked := false, freed := true)] &&
                tree == if old(objs)[h].linked then old(tree) - {old(objs)[h].blkcgId} else old(tree)
      ensures nrWbCongested == old(nrWbCongested) && raPages == old(raPages) && wb == old(wb)
      ensures unchanged(this`minRatio, this`maxRatio, this`maxPropFrac, this`refcnt, this`lastThresh, this`lastNrDirty, this`pausedTotal)
    {
      var c := objs[h];
      if c.refcnt > 1 {
        var d := c.(refcnt := c.refcnt - 1);
        CountsKept(objs, h, d);
        TableKeep(objs, tree, h, d);
        objs := objs[h := d];
        return;
      }
      var d := c.(refcnt := 0, linked := false, freed := true);
      CountsKept(objs, h, d);
      if c.linked {
        TableUnlink(objs, tree, h, d);
        tree := tree - {c.blkcgId};
      } else {
        TableKeep(objs, tree, h, d);
      }
      objs := objs[h := d];
    }

    /**
      * cgwb_bdi_exit: empties the tree and marks every object that was in
      * it unlinked, so that its last put does not touch the tree.
      */
    method CgwbBdiExit()
      requires Valid()
      modifies this
      ensures Valid()
      ensures tree == map[]
      ensures |objs| == |old(objs)|
      ensures forall h :: 0 <= h < |objs| ==> objs[h] == old(objs)[h].(linked := false)
      ensures nrWbCongested == old(nrWbCongested) && raPages == old(raPages) && wb == old(wb)
    {
      for i := 0 to |objs|
        invariant Valid() && |objs| == |old(objs)|
        invariant forall h :: 0 <= h < i ==> objs[h] == old(objs)[h].(linked := false) && !objs[h].linked
        invariant forall h :: i <= h < |objs| ==> objs[h] == old(objs)[h]
        invariant nrWbCongested == old(nrWbCongested) && raPages == old(raPages) && wb == old(wb)
      {
        if objs[i].linked {
          Unlink(objs[i].blkcgId);
        }
      }
      TableEmpty(objs, tree);
    }

    /** One step of cgwb_bdi_exit: rb_erase of a node and __bdi = NULL. */
    method Unlink(id: int)
      requires Valid() && id in tree
      modifies this
      ensures Valid()
      ensures tree == old(tree) - {id} && |tree| < |old(tree)|
      ensures objs == old(objs)[old(tree)[id] := old(objs)[old(tree)[id]].(linked := false)]
      ensures nrWbCongested == old(nrWbCongested) && raPages == old(raPages) && wb == old(wb)
      ensures unchanged(this`minRatio, this`maxRatio, this`maxPropFrac, this`refcnt, this`lastThresh, this`lastNrDirty, this`pausedTotal)
    {
      var k := tree[id];
      var d := objs[k].(linked := false);
      CountsKept(objs, k, d);
      TableUnlink(objs, tree, k, d);
      objs := objs[k := d];
      tree := tree - {id};
    }

    /**
      * wb_init: the writeback starts at `now` with the INIT_BW bandwidth
      * estimates and takes a reference on the congested object of its
      * cgroup. A failed lookup is -ENOMEM; a failed initialisation of
      * its counters (initErr) puts the reference back and is returned.
      */
    method WbInit(now: int, blkcgId: int, allocOk: bool, initErr: int) returns (err: int, w: Wb)
      requires Valid() && initErr <= 0
      modifies this
      ensures Valid()
      ensures w.lastOldFlush == now && w.bwTimeStamp == now && w.dirtySleep == now
      ensures InitialBandwidth(w)
      ensures blkcgId !in old(tree) && !allocOk ==>
                err == -ENOMEM && w.congested.None? && objs == old(objs) && tree == old(tree)
      ensures (blkcgId in old(tree) || allocOk) && initErr < 0 ==> err == initErr && tree == old(tree)
      ensures blkcgId in old(tree) && initErr < 0 ==> objs == old(objs)
      ensures (blkcgId in old(tree) || allocOk) && initErr == 0 ==>
                err == 0 && w.congested.Some? && w.congested.value < |objs| &&
                objs[w.congested.value].blkcgId == blkcgId && !objs[w.congested.value].freed &&
                tree == old(tree)[blkcgId := w.congested.value]
      ensures nrWbCongested == old(nrWbCongested) && raPages == old(raPages) && wb == old(wb)
      ensures unchanged(this`minRatio, this`maxRatio, this`maxPropFrac, this`refcnt, this`lastThresh, this`lastNrDirty, this`pausedTotal)
    {
      w := Wb(now, now, now, InitBw, InitBw, InitBw, InitBw, None);
      var h := GetCreate(blkcgId, allocOk);
      if h.None? {
        return -ENOMEM, w;
      }
      w := w.(congested := h);
      if initErr == 0 {
        return 0, w;
      }
      Put(h.value);
      if blkcgId in old(tree) {
        RefPutRestores(old(objs), h.value);
      } else {
        assert old(tree)[blkcgId := h.value] - {blkcgId} == old(tree);
      }
      err := initErr;
    }

    /**
      * bdi_init: ratio limits 0 and 100, the full proportion fraction,
      * one reference, an empty tree, and the root writeback initialised
      * for the root cgroup; its error is bdi_init's.
      */
    method BdiInit(now: int, allocOk: bool, initErr: int) returns (err: int)
      requires Valid() && initErr <= 0
      requires forall h :: 0 <= h < |objs| ==> !objs[h].linked
      modifies this
      ensures Valid()
      ensures minRatio == 0 && maxRatio == 100 && maxPropFrac == FpropFracBase && refcnt == 1
      ensures lastThresh == 0 && lastNrDirty == 0 && pausedTotal == 0
      ensures InitialBandwidth(wb) && wb.bwTimeStamp == now
      ensures !allocOk ==> err == -ENOMEM && tree == map[] && objs == old(objs)
      ensures allocOk && initErr < 0 ==> err == initErr && tree == map[]
      ensures allocOk && initErr == 0 ==>
                err == 0 && tree.Keys == {RootBlkcgId} && wb.congested == Some(tree[RootBlkcgId])
      ensures nrWbCongested == old(nrWbCongested) && raPages == old(raPages)
    {
      minRatio, maxRatio, maxPropFrac, refcnt := 0, 100, FpropFracBase, 1;
      lastThresh, lastNrDirty, pausedTotal := 0, 0, 0;
      tree := map[];
      var w;
      err, w := WbInit(now, RootBlkcgId, allocOk, initErr);
      wb := w;
    }

    /** wb_exit: the writeback drops its congested object. */
    method WbExit()
      requires Valid() && wb.congested.Some?
      requires wb.congested.value < |objs| && !objs[wb.congested.value].freed
      modifies this
      ensures Valid() && wb == old(wb) && |objs| == |old(objs)|
      ensures var h := wb.congested.value;
              objs[h].refcnt == old(objs)[h].refcnt - 1 && (objs[h].refcnt == 0 <==> objs[h].freed)
      ensures nrWbCongested == old(nrWbCongested)
    {
      Put(wb.congested.value);
    }

    /**
      * wait_iff_congested without congested objects for `sync`: the
      * timeout less the jiffies that passed, where the subtraction is
      * done in unsigned long and read back as long, and 0 once the time
      * is used up. With congestion, what io_schedule_timeout left
      * (`slept`).
      */
    method WaitIffCongested(sync: int, timeout: int, start: nat, now: nat, slept: int) returns (ret: int)
      requires Valid() && (sync == 0 || sync == 1)
      requires -S64Max - 1 <= timeout <= S64Max && start < U64 && now < U64
      ensures nrWbCongested[sync] != 0 ==> ret == slept
      ensures nrWbCongested[sync] == 0 ==> 0 <= ret <= S64Max
      ensures nrWbCongested[sync] == 0 && 0 <= timeout && (now - start) % U64 <= S64Max ==>
                ret == Max(0, timeout - (now - start) % U64)
      ensures nrWbCongested[sync] == 0 && now == start ==> ret == Max(0, timeout)
    {
      if nrWbCongested[sync] != 0 {
        return slept;
      }
      var elapsed := (now - start) % U64;
      ret := ToS64((timeout - elapsed) % U64);
      if ret < 0 {
        ret := 0;
      }
    }
  }

  /** Setting a bit and clearing it again restores the object and the
    * count. */
  lemma SetClearRestores(objs: seq<Congested>, h: nat, sync: bool)
    requires h < |objs| && !HasBit(objs[h], sync)
    ensures objs[h := WithBit(objs[h], sync, true)][h := WithBit(WithBit(objs[h], sync, true), sync, false)] == objs
  {
    var c := objs[h];
    assert WithBit(WithBit(c, sync, true), sync, false) == c;
  }
}

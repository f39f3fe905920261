/**
 * The online-page word of fs/erofs/zdata.h: while a page is being filled
 * by decompression its private word counts the outstanding parts in the
 * low two bits and holds the sub-index above them; the last part to end
 * marks the page up to date and unlocks it. Also z_erofs_pclusterpages
 * and attach/detach_page_private.
 *
 * A page is a class whose fields are the page state those helpers touch.
 * The word is an atomic_t, a C int: it is kept as an int and read as u32
 * where the source reads it as unsigned. Other CPUs racing on the word
 * appear as a parameter listing the values they store.
 */
module Zdata {
  import opened Wrappers

  // ---------------------------------------------------------------
  // Physical clusters
  // ---------------------------------------------------------------

  /** The members of struct z_erofs_pcluster the helper reads. */
  datatype Pcluster = Pcluster(objIndex: nat, pclusterPages: nat)

  /** z_erofs_is_inline_pcluster: a zero object index. */
  predicate IsInlinePcluster(p: Pcluster) {
    p.objIndex == 0
  }

  /** z_erofs_pclusterpages: an inline pcluster occupies one page. */
  function PclusterPages(p: Pcluster): (r: nat)
    ensures IsInlinePcluster(p) ==> r == 1
    ensures !IsInlinePcluster(p) ==> r == p.pclusterPages
  {
    if p.objIndex == 0 then 1 else p.pclusterPages
  }

  // ---------------------------------------------------------------
  // Word layout
  // ---------------------------------------------------------------

  const CountBits: nat := 2
  const CountMask: nat := 3

  /** The waiter count, `word & Z_EROFS_ONLINEPAGE_COUNT_MASK` (on a two's
    * complement int the low bits are the Euclidean remainder). */
  function Count(word: int): (r: nat)
    ensures r <= CountMask
  {
    word % 4
  }

  /** z_erofs_onlinepage_index: the word shifted right by two, an
    * arithmetic shift (floor division) read back as unsigned int. */
  function OnlineIndex(word: int): (r: nat)
    ensures r < U32
    ensures word >= 0 ==> r == word / 4 % U32
  {
    ToU32(word / 4)
  }

  /** Index and count placed side by side read back unchanged. */
  lemma LayoutRoundTrip(index: nat, count: nat)
    requires count <= CountMask && index < U32
    ensures Count(index * 4 + count) == count
    ensures OnlineIndex(index * 4 + count) == index
  {
  }

  /** `(index << 2) | low` for low <= 4: below 4 the two parts are
    * disjoint; a low part of 4 is bit 2, already set when index is odd. */
  function OrLow(index: nat, low: nat): (r: nat)
    requires low <= 4
    ensures low < 4 ==> r == index * 4 + low
  {
    if low < 4 then index * 4 + low
    else if index % 2 == 0 then index * 4 + 4
    else index * 4
  }

  /** One pass of z_erofs_onlinepage_fixup on the value `orig` read: None
    * when it returns without writing (a sub-index is already set and
    * none is asked for), otherwise the value it tries to store, cut to
    * the 32-bit int val. */
  function FixupValue(orig: int, index: nat, down: bool): (r: Option<int>)
    ensures r.None? <==> orig / 4 != 0 && index == 0
    ensures r.Some? ==> -0x8000_0000 <= r.value < 0x8000_0000
  {
    if orig / 4 != 0 && index == 0 then None
    else Some(ToS32(OrLow(index, Count(orig) + (if down then 1 else 0)) % U32))
  }

  /** When the count does not overflow its two bits and the index fits,
    * the new word holds the requested index and the count plus `down`. */
  lemma FixupLayout(orig: int, index: nat, down: bool)
    requires index < 0x2000_0000
    requires Count(orig) + (if down then 1 else 0) <= CountMask
    requires !(orig / 4 != 0 && index == 0)
    ensures FixupValue(orig, index, down).Some?
    ensures OnlineIndex(FixupValue(orig, index, down).value) == index
    ensures Count(FixupValue(orig, index, down).value) == Count(orig) + (if down then 1 else 0)
  {
    var low := Count(orig) + (if down then 1 else 0);
    assert OrLow(index, low) == index * 4 + low < 0x8000_0000;
    LayoutRoundTrip(index, low);
  }

  /** A count of 3 raised by `down` carries into the index: with index 2
    * the stored word reads back as index 3 and count 0. */
  lemma FixupCountCarries()
    ensures FixupValue(3, 2, true) == Some(12)
    ensures OnlineIndex(12) == 3 && Count(12) == 0
  {
  }

  // ---------------------------------------------------------------
  // Pages
  // ---------------------------------------------------------------

  /** The page state the helpers touch: page_private, PG_private,
    * PG_error, PG_uptodate, PG_locked and the reference count. */
  class Page {
    var priv: int
    var isPrivate: bool
    var error: bool
    var uptodate: bool
    var locked: bool
    var refCount: int

    constructor (error: bool)
      ensures priv == 0 && !isPrivate && this.error == error
      ensures !uptodate && locked && refCount == 1
    {
      priv := 0;
      isPrivate := false;
      this.error := error;
      uptodate := false;
      locked := true;
      refCount := 1;
    }

    /** z_erofs_onlinepage_init: count 1, sub-index 0, page private. */
    method OnlinePageInit()
      modifies this
      ensures priv == 1 && isPrivate
      ensures Count(priv) == 1 && OnlineIndex(priv) == 0
      ensures error == old(error) && uptodate == old(uptodate)
      ensures locked == old(locked) && refCount == old(refCount)
    {
      priv := 1;
      isPrivate := true;
    }

    /** z_erofs_onlinepage_index. */
    method OnlinePageIndex() returns (index: nat)
      requires isPrivate
      ensures index == OnlineIndex(priv)
    {
      index := ToU32(priv / 4);
    }

    /** z_erofs_onlinepage_fixup. Each pass reads the word; `racing[k]`
      * is what another CPU stores between the k-th read and the k-th
      * compare-and-exchange, which then succeeds only if the word still
      * holds the value read. Once the racing stores are used up the
      * exchange succeeds. */
    method OnlinePageFixup(index: nat, down: bool, racing: seq<int>)
      modifies this
      ensures exists k :: 0 <= k <= |racing| && FixupSettles(old(priv), racing, k, index, down, priv) &&
                (forall j :: 0 <= j < k ==> Retried(old(priv), racing, j, index, down))
      ensures isPrivate == old(isPrivate) && error == old(error) && uptodate == old(uptodate)
      ensures locked == old(locked) && refCount == old(refCount)
    {
      var k := 0;
      while true
        invariant 0 <= k <= |racing|
        invariant priv == Seen(old(priv), racing, k)
        invariant forall j :: 0 <= j < k ==> Retried(old(priv), racing, j, index, down)
        invariant isPrivate == old(isPrivate) && error == old(error) && uptodate == old(uptodate)
        invariant locked == old(locked) && refCount == old(refCount)
        decreases |racing| - k
      {
        var orig := priv;
        var origIndex := orig / 4;
        if origIndex != 0 && index == 0 {
          assert FixupSettles(old(priv), racing, k, index, down, priv);
          return;
        }
        var val := ToS32(OrLow(index, Count(orig) + (if down then 1 else 0)) % U32);
        if k < |racing| {
          priv := racing[k];
        }
        if priv == orig {
          priv := val;
          assert FixupSettles(old(priv), racing, k, index, down, priv);
          return;
        }
        assert Retried(old(priv), racing, k, index, down);
        k := k + 1;
      }
    }

    /** z_erofs_onlinepage_endio: one part finished. When the count bits
      * reach zero the page stops being private, becomes up to date unless
      * it has an error, and is unlocked. */
    method OnlinePageEndio()
      requires isPrivate
      modifies this
      ensures var v := ToU32(old(priv) - 1);
              if v % 4 == 0 then
                priv == 0 && !isPrivate && !locked && uptodate == (old(uptodate) || !error)
              else
                priv == old(priv) - 1 && isPrivate && locked == old(locked) && uptodate == old(uptodate)
      ensures error == old(error) && refCount == old(refCount)
    {
      priv := priv - 1;
      var v := ToU32(priv);
      if v % 4 == 0 {
        priv := 0;
        isPrivate := false;
        if !error {
          uptodate := true;
        }
        locked := false;
      }
    }

    /** attach_page_private: take a reference and store the data. */
    method AttachPagePrivate(data: int)
      modifies this
      ensures refCount == old(refCount) + 1 && priv == data && isPrivate
      ensures error == old(error) && uptodate == old(uptodate) && locked == old(locked)
    {
      refCount := refCount + 1;
      priv := data;
      isPrivate := true;
    }

    /** detach_page_private: NULL (0) for a page that is not private;
      * otherwise the stored data, with the word cleared and the reference
      * dropped. */
    method DetachPagePrivate() returns (data: int)
      modifies this
      ensures !old(isPrivate) ==> data == 0 && priv == old(priv) && refCount == old(refCount)
      ensures old(isPrivate) ==> data == old(priv) && priv == 0 && refCount == old(refCount) - 1
      ensures !isPrivate
      ensures error == old(error) && uptodate == old(uptodate) && locked == old(locked)
    {
      data := priv;
      if !isPrivate {
        return 0;
      }
      isPrivate := false;
      priv := 0;
      refCount := refCount - 1;
    }
  }

  /** The word each pass of fixup reads: the initial word, then the value
    * stored by the racing CPU before the previous exchange. */
  function Seen(initial: int, racing: seq<int>, k: nat): int
    requires k <= |racing|
  {
    if k == 0 then initial else racing[k - 1]
  }

  /** Pass j failed: it meant to write, and the racing store changed the
    * word away from what it read. */
  predicate Retried(initial: int, racing: seq<int>, j: nat, index: nat, down: bool)
    requires j < |racing|
  {
    FixupValue(Seen(initial, racing, j), index, down).Some? && racing[j] != Seen(initial, racing, j)
  }

  /** Pass k ended the loop leaving `word`: either it returned without
    * writing (the word is what it read), or its exchange went through and
    * stored the fixed-up value of what it read. */
  predicate FixupSettles(initial: int, racing: seq<int>, k: nat, index: nat, down: bool, word: int)
    requires k <= |racing|
  {
    var orig := Seen(initial, racing, k);
    match FixupValue(orig, index, down)
    case None => word == orig
    case Some(v) => word == v && (k < |racing| ==> racing[k] == orig)
  }

  /** Without racing CPUs fixup is a single pass: the word becomes the
    * fixed-up value of what it held, or stays when fixup declines. */
  lemma FixupAlone(initial: int, index: nat, down: bool, word: int)
    requires FixupSettles(initial, [], 0, index, down, word)
    ensures word == match FixupValue(initial, index, down)
                    case None => initial
                    case Some(v) => v
  {
  }

  /** A word holding count c reaches zero count bits at the c-th endio
    * and not before, so the page is unlocked by its last part. */
  lemma EndioUnlocksOnLast(index: nat, c: nat, j: nat)
    requires index < 0x2000_0000 && 1 <= c <= CountMask && 1 <= j <= c
    ensures ToU32(index * 4 + c - j) % 4 == 0 <==> j == c
  {
    assert 0 <= index * 4 + c - j < U32;
    assert (index * 4 + (c - j)) % 4 == c - j;
  }
}

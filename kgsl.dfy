/**
 * The remaining core of drivers/gpu/msm/kgsl.c: the classification of a
 * command submission, the sparse allocation parameter check, the sparse
 * bind tree of a virtual entry, the metadata string of a new object, the
 * pending-free flag, the cache operation a sync request selects and the
 * two flag filters.
 *
 * The bind tree is an rb-tree of bind objects ordered by virtual offset;
 * it is modelled as a binary search tree. Virtual and physical offsets and
 * sizes are added exactly. The uapi flag words are split into the fields
 * the functions test, since the uapi header is not part of this model.
 */
module Kgsl {
  import opened Wrappers

  // ---------------------------------------------------------------
  // Command submission
  // ---------------------------------------------------------------

  /** The two drawobj flags _process_command_input tests. */
  datatype DrawobjFlags = DrawobjFlags(marker: bool, sync: bool)

  /** MARKEROBJ_TYPE, CMDOBJ_TYPE and SYNCOBJ_TYPE; a set of them is the
    * returned type mask, the empty set being the 0 of failure. */
  datatype ObjType = MarkerObj | CmdObj | SyncObj

  /** KGSL_MAX_NUMIBS and KGSL_MAX_SYNCPOINTS. */
  datatype Limits = Limits(maxNumIbs: nat, maxSyncpoints: nat)

  predicate ExceedsLimits(numcmds: nat, numobjs: nat, numsyncs: nat, lim: Limits) {
    numcmds > lim.maxNumIbs || numobjs > lim.maxNumIbs || numsyncs > lim.maxSyncpoints
  }

  /** _process_command_input: nothing when a count is over its limit;
    * otherwise the type the flags name, MARKER winning over SYNC, or the
    * type the counts suggest. */
  function ProcessCommandInput(flags: DrawobjFlags, numcmds: nat, numobjs: nat, numsyncs: nat,
                               lim: Limits): (r: set<ObjType>)
    ensures ExceedsLimits(numcmds, numobjs, numsyncs, lim) ==> r == {}
    ensures !ExceedsLimits(numcmds, numobjs, numsyncs, lim) && flags.marker ==> r == {MarkerObj}
    ensures !ExceedsLimits(numcmds, numobjs, numsyncs, lim) && !flags.marker && flags.sync ==> r == {SyncObj}
  {
    if ExceedsLimits(numcmds, numobjs, numsyncs, lim) then {}
    else if flags.marker then {MarkerObj}
    else if flags.sync then {SyncObj}
    else if numsyncs != 0 && numcmds != 0 then {SyncObj, CmdObj}
    else if numsyncs != 0 then {SyncObj}
    else if numcmds != 0 then {CmdObj}
    else {MarkerObj}
  }

  /** Within the limits the final `return 0` is never reached; without
    * flags the command type is present exactly when there are commands and
    * the sync type exactly when there are syncpoints, and a marker is
    * never combined with anything. */
  lemma CommandTypeDeduced(flags: DrawobjFlags, numcmds: nat, numobjs: nat, numsyncs: nat, lim: Limits)
    requires !ExceedsLimits(numcmds, numobjs, numsyncs, lim)
    ensures ProcessCommandInput(flags, numcmds, numobjs, numsyncs, lim) != {}
    ensures var r := ProcessCommandInput(flags, numcmds, numobjs, numsyncs, lim);
            !flags.marker && !flags.sync ==>
              (CmdObj in r <==> numcmds != 0) && (SyncObj in r <==> numsyncs != 0) &&
              (MarkerObj in r <==> numcmds == 0 && numsyncs == 0)
    ensures var r := ProcessCommandInput(flags, numcmds, numobjs, numsyncs, lim);
            MarkerObj in r ==> r == {MarkerObj}
  {
  }

  // ---------------------------------------------------------------
  // Sparse allocation parameters
  // ---------------------------------------------------------------

  /** PAGE_SIZE for 4K pages, and SZ_64K. */
  const PageSize: nat := 0x1000
  const Size64K: nat := 0x10000

  /** _sparse_alloc_param_sanity_check. IS_ALIGNED(size, pagesize) masks
    * with pagesize - 1, which is the remainder because pagesize is one of
    * the two powers of two by then. */
  function SparseAllocParamSanityCheck(size: nat, pagesize: nat): (r: int)
    ensures r == 0 || r == -EINVAL
  {
    if size == 0 || pagesize == 0 then -EINVAL
    else if pagesize != PageSize && pagesize != Size64K then -EINVAL
    else if pagesize > size || size % pagesize != 0 then -EINVAL
    else 0
  }

  /** The check accepts exactly the sizes that are a positive whole number
    * of 4K or 64K pages. */
  lemma SparseSizeIsPages(size: nat, pagesize: nat)
    ensures SparseAllocParamSanityCheck(size, pagesize) == 0 <==>
              (pagesize == PageSize || pagesize == Size64K) &&
              size / pagesize >= 1 && size == (size / pagesize) * pagesize
  {
  }

  // ---------------------------------------------------------------
  // The sparse bind tree
  // ---------------------------------------------------------------

  /** struct sparse_bind_object; the physical memdesc is an opaque id. */
  datatype BindObj = BindObj(vOff: nat, pOff: nat, memdesc: int, size: nat, flags: nat)

  /** The bind tree as a binary search tree on virtual offsets. Colours
    * and rebalancing are not modelled: rotations keep the in-order
    * sequence, which is all the properties below speak of. */
  datatype Tree = Leaf | Node(left: Tree, obj: BindObj, right: Tree)

  function End(b: BindObj): nat {
    b.vOff + b.size
  }

  /** The bind objects of a tree. An ordered tree holds each object once,
    * so this set is all there is to its contents. */
  function Objs(t: Tree): set<BindObj> {
    match t
    case Leaf => {}
    case Node(l, b, r) => Objs(l) + {b} + Objs(r)
  }

  /** x ends at or before y starts. */
  predicate Before(x: BindObj, y: BindObj) {
    End(x) <= y.vOff
  }

  /** Every object is non-empty and lies wholly before every object of
    * its right subtree and after every object of its left subtree. */
  predicate Ordered(t: Tree) {
    match t
    case Leaf => true
    case Node(l, b, r) =>
      b.size > 0 && Ordered(l) && Ordered(r) &&
      (forall x | x in Objs(l) :: Before(x, b)) &&
      (forall x | x in Objs(r) :: Before(b, x))
  }

  /** The descent's "go left" test. */
  predicate GoesLeft(n: BindObj, b: BindObj) {
    n.vOff < b.vOff && End(n) <= b.vOff
  }

  /** The descent's "go right" test. */
  predicate GoesRight(n: BindObj, b: BindObj) {
    n.vOff > b.vOff && n.vOff >= End(b)
  }

  /** A node the descent stops at with -EADDRINUSE. */
  predicate Conflict(n: BindObj, b: BindObj) {
    !GoesLeft(n, b) && !GoesRight(n, b)
  }

  /** Between non-empty objects a conflict is an overlap of the ranges. */
  lemma ConflictIsOverlap(n: BindObj, b: BindObj)
    requires n.size > 0 && b.size > 0
    ensures Conflict(n, b) <==> n.vOff < End(b) && b.vOff < End(n)
  {
  }

  /** The insertion _sparse_add_to_bind_tree performs once its object is
    * allocated: descend by the two tests and link at the empty child
    * reached, or fail at the first node that conflicts. */
  function Insert(t: Tree, n: BindObj): Option<Tree> {
    match t
    case Leaf => Some(Node(Leaf, n, Leaf))
    case Node(l, b, r) =>
      if GoesLeft(n, b) then
        match Insert(l, n)
        case None => None
        case Some(l') => Some(Node(l', b, r))
      else if GoesRight(n, b) then
        match Insert(r, n)
        case None => None
        case Some(r') => Some(Node(l, b, r'))
      else None
  }

  lemma {:induction false} OrderedSizes(t: Tree)
    requires Ordered(t)
    ensures forall x | x in Objs(t) :: x.size > 0
  {
    match t
    case Leaf =>
    case Node(l, b, r) =>
      OrderedSizes(l);
      OrderedSizes(r);
  }

  /** No object of the tree conflicts with n. */
  predicate Clear(t: Tree, n: BindObj) {
    forall x | x in Objs(t) :: !Conflict(n, x)
  }

  /** In an ordered tree, looking at the search path only is enough: the
    * insertion fails exactly when the new range conflicts with some
    * object, and otherwise adds just that object and keeps the tree
    * ordered. */
  lemma {:induction false} InsertCorrect(t: Tree, n: BindObj)
    requires Ordered(t)
    ensures Insert(t, n).None? <==> !Clear(t, n)
    ensures Insert(t, n).Some? ==> Objs(Insert(t, n).value) == Objs(t) + {n}
    ensures Insert(t, n).Some? && n.size > 0 ==> Ordered(Insert(t, n).value)
  {
    match t
    case Leaf =>
    case Node(l, b, r) =>
      if GoesLeft(n, b) {
        InsertCorrect(l, n);
        assert Clear(r, n) by {
          forall x | x in Objs(r)
            ensures GoesLeft(n, x)
          {
            assert Before(b, x);
          }
        }
        assert Clear(t, n) <==> Clear(l, n);
      } else if GoesRight(n, b) {
        InsertCorrect(r, n);
        OrderedSizes(l);
        assert Clear(l, n) by {
          forall x | x in Objs(l)
            ensures GoesRight(n, x)
          {
            assert Before(x, b);
          }
        }
        assert Clear(t, n) <==> Clear(r, n);
      } else {
        assert b in Objs(t);
      }
  }

  /** The tree with both subtrees joined, l's objects first. */
  function Join(l: Tree, r: Tree): Tree {
    match l
    case Leaf => r
    case Node(ll, b, lr) => Node(ll, b, Join(lr, r))
  }

  lemma {:induction false} JoinCorrect(l: Tree, r: Tree)
    requires Ordered(l) && Ordered(r)
    requires forall x, y | x in Objs(l) && y in Objs(r) :: Before(x, y)
    ensures Objs(Join(l, r)) == Objs(l) + Objs(r)
    ensures Ordered(Join(l, r))
  {
    match l
    case Leaf =>
    case Node(ll, b, lr) =>
      JoinCorrect(lr, r);
      assert b in Objs(l);
  }

  /** rb_erase of the node holding o, found by its virtual offset. */
  function Erase(t: Tree, o: BindObj): Tree {
    match t
    case Leaf => Leaf
    case Node(l, b, r) =>
      if b == o then Join(l, r)
      else if o.vOff < b.vOff then Node(Erase(l, o), b, r)
      else Node(l, b, Erase(r, o))
  }

  /** An object other than a node's own lies on the side its virtual
    * offset says. */
  lemma SideOf(l: Tree, b: BindObj, r: Tree, o: BindObj)
    requires Ordered(Node(l, b, r)) && o in Objs(Node(l, b, r)) && o != b
    ensures o.vOff < b.vOff ==> o in Objs(l) && o !in Objs(r)
    ensures o.vOff >= b.vOff ==> o in Objs(r) && o !in Objs(l)
  {
    OrderedSizes(Node(l, b, r));
    if o in Objs(l) {
      assert Before(o, b);
    }
    if o in Objs(r) {
      assert Before(b, o);
    }
  }

  lemma {:induction false} EraseCorrect(t: Tree, o: BindObj)
    requires Ordered(t) && o in Objs(t)
    ensures Objs(Erase(t, o)) == Objs(t) - {o}
    ensures Ordered(Erase(t, o))
  {
    match t
    case Node(l, b, r) =>
      if b == o {
        OrderedSizes(t);
        assert b !in Objs(l);
        assert b !in Objs(r);
        forall x, y | x in Objs(l) && y in Objs(r)
          ensures Before(x, y)
        {
          assert Before(x, b) && Before(b, y);
        }
        JoinCorrect(l, r);
      } else if o.vOff < b.vOff {
        SideOf(l, b, r, o);
        EraseCorrect(l, o);
      } else {
        SideOf(l, b, r, o);
        EraseCorrect(r, o);
      }
  }

  /** The node holding o, found by its virtual offset, given the new
    * bounds o'. */
  function Replace(t: Tree, o: BindObj, o': BindObj): Tree {
    match t
    case Leaf => Leaf
    case Node(l, b, r) =>
      if b == o then Node(l, o', r)
      else if o.vOff < b.vOff then Node(Replace(l, o, o'), b, r)
      else Node(l, b, Replace(r, o, o'))
  }

  /** o' lies inside o and is not empty. */
  predicate Within(o': BindObj, o: BindObj) {
    o.vOff <= o'.vOff && End(o') <= End(o) && o'.size > 0
  }

  lemma {:induction false} ReplaceObjs(t: Tree, o: BindObj, o': BindObj)
    requires Ordered(t) && o in Objs(t)
    ensures Objs(Replace(t, o, o')) == Objs(t) - {o} + {o'}
  {
    match t
    case Node(l, b, r) =>
      OrderedSizes(t);
      if b == o {
        assert b !in Objs(l);
        assert b !in Objs(r);
      } else {
        SideOf(l, b, r, o);
        if o.vOff < b.vOff {
          ReplaceObjs(l, o, o');
        } else {
          ReplaceObjs(r, o, o');
        }
      }
  }

  lemma {:induction false} ReplaceOrdered(t: Tree, o: BindObj, o': BindObj)
    requires Ordered(t) && o in Objs(t) && Within(o', o)
    ensures Ordered(Replace(t, o, o'))
  {
    match t
    case Node(l, b, r) =>
      if b == o {
        forall x | x in Objs(l)
          ensures Before(x, o')
        {
          assert Before(x, o);
        }
        forall x | x in Objs(r)
          ensures Before(o', x)
        {
          assert Before(o, x);
        }
      } else if o.vOff < b.vOff {
        SideOf(l, b, r, o);
        ReplaceOrdered(l, o, o');
        ReplaceObjs(l, o, o');
        assert Before(o, b);
      } else {
        SideOf(l, b, r, o);
        ReplaceOrdered(r, o, o');
        ReplaceObjs(r, o, o');
        assert Before(b, o);
      }
  }

  /** Giving an object narrower bounds replaces just that object and
    * keeps the tree ordered. */
  lemma ReplaceCorrect(t: Tree, o: BindObj, o': BindObj)
    requires Ordered(t) && o in Objs(t) && Within(o', o)
    ensures Objs(Replace(t, o, o')) == Objs(t) - {o} + {o'}
    ensures Ordered(Replace(t, o, o'))
  {
    ReplaceObjs(t, o, o');
    ReplaceOrdered(t, o, o');
  }

  /** The case _sparse_rm_from_bind_tree takes for removing
    * [vOffset, vOffset + size) from obj. */
  datatype RmCase = RmWhole | RmFront | RmBack | RmSplit

  function RmCaseOf(obj: BindObj, vOffset: nat, size: nat): RmCase {
    if vOffset == obj.vOff && size >= obj.size then RmWhole
    else if vOffset == obj.vOff then RmFront
    else if vOffset + size == End(obj) then RmBack
    else RmSplit
  }

  /** The part of obj before the removed range, in the split case. */
  function SplitHead(obj: BindObj, vOffset: nat): BindObj
    requires obj.vOff <= vOffset
  {
    obj.(size := vOffset - obj.vOff)
  }

  /** The part of obj after the removed range, in the split case. */
  function SplitTail(obj: BindObj, vOffset: nat, size: nat): BindObj
    requires obj.vOff <= vOffset && vOffset + size <= End(obj)
  {
    BindObj(vOffset + size, obj.pOff + (vOffset - obj.vOff) + size, obj.memdesc,
            obj.size - (vOffset - obj.vOff) - size, obj.flags)
  }

  /** What is left of obj once [vOffset, vOffset + size) is unbound. */
  function Pieces(obj: BindObj, vOffset: nat, size: nat): seq<BindObj>
    requires obj.vOff <= vOffset && vOffset + size <= End(obj)
  {
    match RmCaseOf(obj, vOffset, size)
    case RmWhole => []
    case RmFront => [obj.(vOff := obj.vOff + size, pOff := obj.pOff + size, size := obj.size - size)]
    case RmBack => [obj.(size := obj.size - size)]
    case RmSplit => [SplitHead(obj, vOffset), SplitTail(obj, vOffset, size)]
  }

  predicate Covers(b: BindObj, a: nat) {
    b.vOff <= a < End(b)
  }

  /** The pieces cover exactly the addresses of obj outside the removed
    * range, each non-empty and lying within obj, in order, and each maps
    * its virtual addresses to the same physical offsets as obj did. */
  lemma PiecesCorrect(obj: BindObj, vOffset: nat, size: nat, a: nat)
    requires obj.vOff <= vOffset && vOffset + size <= End(obj)
    ensures var ps := Pieces(obj, vOffset, size);
            (exists i :: 0 <= i < |ps| && Covers(ps[i], a)) <==> Covers(obj, a) && !(vOffset <= a < vOffset + size)
    ensures var ps := Pieces(obj, vOffset, size);
            forall i | 0 <= i < |ps| :: Within(ps[i], obj) && ps[i].pOff - ps[i].vOff == obj.pOff - obj.vOff
    ensures var ps := Pieces(obj, vOffset, size);
            |ps| == 2 ==> Before(ps[0], ps[1])
  {
    var ps := Pieces(obj, vOffset, size);
    if |ps| == 2 && Covers(obj, a) && !(vOffset <= a < vOffset + size) {
      if a < vOffset {
        assert Covers(ps[0], a);
      } else {
        assert Covers(ps[1], a);
      }
    }
  }

  // ---------------------------------------------------------------
  // Metadata strings
  // ---------------------------------------------------------------

  /** isprint on the kernel's Latin-1 ctype table: space to '~' and
    * 0xa0 to 0xff. */
  predicate IsPrint(c: int) {
    0x20 <= c <= 0x7e || 0xa0 <= c <= 0xff
  }

  const QuestionMark: int := 0x3f

  /** No NUL among the first k + 1 bytes. */
  predicate NoNulThrough(s: seq<int>, k: int)
    requires k < |s|
  {
    forall j :: 0 <= j <= k ==> s[j] != 0
  }

  /** The string with every non-printable byte before the first NUL made
    * a '?'. */
  function CleanString(s: seq<int>): (r: seq<int>)
    ensures |r| == |s|
  {
    seq(|s|, k requires 0 <= k < |s| => if NoNulThrough(s, k) && !IsPrint(s[k]) then QuestionMark else s[k])
  }

  /** The cleaned string is printable up to its first NUL, which stays
    * where it was, and cleaning twice changes nothing more. */
  lemma CleanStringCorrect(s: seq<int>)
    ensures forall k | 0 <= k < |s| :: NoNulThrough(s, k) ==> IsPrint(CleanString(s)[k])
    ensures forall k | 0 <= k < |s| :: CleanString(s)[k] == 0 <==> s[k] == 0
    ensures forall k | 0 <= k < |s| :: !NoNulThrough(s, k) ==> CleanString(s)[k] == s[k]
    ensures CleanString(CleanString(s)) == CleanString(s)
  {
    var c := CleanString(s);
    forall k | 0 <= k < |s|
      ensures NoNulThrough(c, k) == NoNulThrough(s, k)
    {
      if !NoNulThrough(s, k) {
        var j :| 0 <= j <= k && s[j] == 0;
        assert c[j] == 0;
      } else {
        assert forall j :: 0 <= j <= k ==> c[j] != 0;
      }
    }
  }

  // ---------------------------------------------------------------
  // Memory entries
  // ---------------------------------------------------------------

  /** The parts of struct kgsl_mem_entry these operations change: the
    * pending-free flag, the bind tree of a virtual entry and the metadata
    * buffer. */
  class MemEntry {
    var pendingFree: bool
    var bindTree: Tree
    const metadata: array<int>

    /** A new entry with a metadata buffer of `metadataSize` zero bytes. */
    constructor (metadataSize: nat)
      requires metadataSize >= 1
      ensures !pendingFree && bindTree == Leaf
      ensures metadata.Length == metadataSize && fresh(metadata)
      ensures forall i :: 0 <= i < metadata.Length ==> metadata[i] == 0
    {
      pendingFree := false;
      bindTree := Leaf;
      metadata := new int[metadataSize](_ => 0);
    }

    /** kgsl_mem_entry_set_pend: claim the free if nobody has. */
    method SetPend() returns (claimed: bool)
      modifies this`pendingFree
      ensures claimed <==> !old(pendingFree)
      ensures pendingFree
    {
      claimed := false;
      if !pendingFree {
        pendingFree := true;
        claimed := true;
      }
    }

    /** kgsl_mem_entry_unset_pend. */
    method UnsetPend()
      modifies this`pendingFree
      ensures !pendingFree
    {
      pendingFree := false;
    }

    /** _sparse_add_to_bind_tree. The allocation of the new object may
      * fail; otherwise the loop descends from the root by the two tests and
      * either stops at a conflicting node or links the object at the empty
      * child it reaches. */
    method SparseAddToBindTree(vOffset: nat, memdesc: int, pOffset: nat, size: nat, flags: nat,
                               allocFails: bool) returns (ret: int)
      modifies this`bindTree
      ensures var n := BindObj(vOffset, pOffset, memdesc, size, flags);
              if allocFails then ret == -ENOMEM && bindTree == old(bindTree)
              else match Insert(old(bindTree), n)
                   case None => ret == -EADDRINUSE && bindTree == old(bindTree)
                   case Some(t) => ret == 0 && bindTree == t
    {
      if allocFails {
        return -ENOMEM;
      }
      var n := BindObj(vOffset, pOffset, memdesc, size, flags);
      var node := bindTree;
      while node.Node?
        invariant Insert(bindTree, n).None? <==> Insert(node, n).None?
        decreases node
      {
        var cur := node.obj;
        if GoesLeft(n, cur) {
          node := node.left;
        } else if GoesRight(n, cur) {
          node := node.right;
        } else {
          return -EADDRINUSE;
        }
      }
      bindTree := Insert(bindTree, n).value;
      ret := 0;
    }

    /** _sparse_rm_from_bind_tree: unbind [vOffset, vOffset + size) from
      * obj, the bound object containing it. The split case shortens obj and
      * then adds the tail as a new object, which may fail to allocate. */
    method SparseRmFromBindTree(obj: BindObj, vOffset: nat, size: nat, allocFails: bool) returns (ret: int)
      requires Ordered(bindTree) && obj in Objs(bindTree)
      requires obj.vOff <= vOffset && vOffset + size <= End(obj)
      modifies this`bindTree
      ensures Ordered(bindTree)
      ensures ret == 0 ==> Objs(bindTree) == old(Objs(bindTree)) - {obj} + SetOf(Pieces(obj, vOffset, size))
      ensures ret != 0 ==> ret == -ENOMEM && RmCaseOf(obj, vOffset, size) == RmSplit &&
                           Objs(bindTree) == old(Objs(bindTree)) - {obj} + {SplitHead(obj, vOffset)}
    {
      var ps := Pieces(obj, vOffset, size);
      if vOffset == obj.vOff && size >= obj.size {
        EraseCorrect(bindTree, obj);
        assert SetOf(ps) == {};
        bindTree := Erase(bindTree, obj);
      } else if vOffset == obj.vOff {
        assert |ps| == 1 && Within(ps[0], obj) && SetOf(ps) == {ps[0]};
        ReplaceCorrect(bindTree, obj, ps[0]);
        bindTree := Replace(bindTree, obj, ps[0]);
      } else if vOffset + size == End(obj) {
        assert |ps| == 1 && Within(ps[0], obj) && SetOf(ps) == {ps[0]};
        ReplaceCorrect(bindTree, obj, ps[0]);
        bindTree := Replace(bindTree, obj, ps[0]);
      } else {
        var head := SplitHead(obj, vOffset);
        var tail := SplitTail(obj, vOffset, size);
        SplitTailFits(bindTree, obj, vOffset, size);
        bindTree := Replace(bindTree, obj, head);
        InsertCorrect(bindTree, tail);
        assert SetOf(ps) == {head, tail};
        ret := SparseAddToBindTree(tail.vOff, tail.memdesc, tail.pOff, tail.size, tail.flags, allocFails);
        return;
      }
      ret := 0;
    }

    /** copy_metadata: copy min(len, sizeof - 1) bytes from the user
      * buffer `user` (the bytes readable there; the copy fails when there
      * are fewer), clearing the whole buffer on failure, then replace the
      * non-printable bytes before the first NUL with '?'. */
    method CopyMetadata(user: seq<int>, len: nat)
      requires metadata.Length >= 1
      modifies metadata
      ensures var size := Min(len, metadata.Length - 1);
              if len == 0 then metadata[..] == old(metadata[..])
              else if |user| < size then forall i :: 0 <= i < metadata.Length ==> metadata[i] == 0
              else metadata[..] == CleanString(user[..size]) + old(metadata[size..])
    {
      if len == 0 {
        return;
      }
      var size := Min(len, metadata.Length - 1);
      if |user| < size {
        forall i | 0 <= i < metadata.Length {
          metadata[i] := 0;
        }
        return;
      }
      forall i | 0 <= i < size {
        metadata[i] := user[i];
      }
      assert metadata[..size] == user[..size];
      CleanMetadata(size);
      assert metadata[..] == metadata[..size] + metadata[size..];
    }

    /** The clean-up loop of copy_metadata over the first `size` bytes:
      * stop at the end or at a NUL, and make each non-printable byte a
      * '?'. */
    method CleanMetadata(size: nat)
      requires size <= metadata.Length
      modifies metadata
      ensures metadata[..size] == CleanString(old(metadata[..size]))
      ensures metadata[size..] == old(metadata[size..])
    {
      ghost var u := metadata[..size];
      var i := 0;
      while i < size && metadata[i] != 0
        invariant 0 <= i <= size
        invariant forall j :: 0 <= j < i ==> u[j] != 0 && metadata[j] == CleanString(u)[j]
        invariant forall j :: i <= j < size ==> metadata[j] == u[j]
        invariant metadata[size..] == old(metadata[size..])
      {
        assert NoNulThrough(u, i);
        if !IsPrint(metadata[i]) {
          metadata[i] := QuestionMark;
        }
        i := i + 1;
      }
      forall j | i <= j < size
        ensures metadata[j] == CleanString(u)[j]
      {
        assert !NoNulThrough(u, j) by {
          assert u[i] == 0;
        }
      }
    }
  }

  function SetOf(s: seq<BindObj>): set<BindObj> {
    set x | x in s
  }

  /** Two distinct objects of an ordered tree lie one before the other. */
  lemma {:induction false} OrderedDisjoint(t: Tree, x: BindObj, y: BindObj)
    requires Ordered(t) && x in Objs(t) && y in Objs(t) && x != y
    ensures Before(x, y) || Before(y, x)
  {
    match t
    case Node(l, b, r) =>
      OrderedSizes(t);
      if x in Objs(l) && y in Objs(l) {
        OrderedDisjoint(l, x, y);
      } else if x in Objs(r) && y in Objs(r) {
        OrderedDisjoint(r, x, y);
      } else if x in Objs(l) && y in Objs(r) {
        assert Before(x, b) && Before(b, y);
      } else if y in Objs(l) && x in Objs(r) {
        assert Before(y, b) && Before(b, x);
      }
  }

  /** Splitting keeps the tree ordered, and the tail split off obj never
    * conflicts in the tree where obj was shortened to its head, so the
    * split can only fail to allocate. */
  lemma SplitTailFits(t: Tree, obj: BindObj, vOffset: nat, size: nat)
    requires Ordered(t) && obj in Objs(t)
    requires obj.vOff < vOffset && vOffset + size < End(obj)
    ensures var t' := Replace(t, obj, SplitHead(obj, vOffset));
            Ordered(t') && Objs(t') == Objs(t) - {obj} + {SplitHead(obj, vOffset)} &&
            Insert(t', SplitTail(obj, vOffset, size)).Some?
  {
    var head := SplitHead(obj, vOffset);
    var tail := SplitTail(obj, vOffset, size);
    ReplaceCorrect(t, obj, head);
    var t' := Replace(t, obj, head);
    OrderedSizes(t);
    forall x | x in Objs(t')
      ensures !Conflict(tail, x)
    {
      if x != head {
        OrderedDisjoint(t, x, obj);
      }
    }
    InsertCorrect(t', tail);
  }

  // ---------------------------------------------------------------
  // Cache maintenance and flags
  // ---------------------------------------------------------------

  /** The bits of a sync request: KGSL_GPUMEM_CACHE_CLEAN, _INV and
    * _RANGE. KGSL_GPUMEM_CACHE_FLUSH is clean and inv together. */
  datatype CacheRequest = CacheRequest(clean: bool, inv: bool, range: bool)

  /** KGSL_CACHE_OP_FLUSH, _CLEAN and _INV. */
  datatype CacheOp = OpFlush | OpClean | OpInv

  /** The cache mode field of a memdesc's flags. */
  datatype CacheMode = WriteCombine | Uncached | WriteThrough | WriteBack

  /** The memdesc members _kgsl_gpumem_sync_cache reads. */
  datatype MemDesc = MemDesc(secure: bool, size: nat, cacheMode: CacheMode)

  /** The op a request selects: flush when both bits are set. */
  function SelectCacheOp(req: CacheRequest): (r: Option<CacheOp>)
    ensures r.None? <==> !req.clean && !req.inv
  {
    if req.clean && req.inv then Some(OpFlush)
    else if req.clean then Some(OpClean)
    else if req.inv then Some(OpInv)
    else None
  }

  predicate Cleans(op: CacheOp) {
    op == OpFlush || op == OpClean
  }

  predicate Invalidates(op: CacheOp) {
    op == OpFlush || op == OpInv
  }

  /** The selected op cleans exactly when cleaning was asked for and
    * invalidates exactly when invalidation was. */
  lemma CacheOpMatchesRequest(req: CacheRequest)
    requires req.clean || req.inv
    ensures Cleans(SelectCacheOp(req).value) == req.clean
    ensures Invalidates(SelectCacheOp(req).value) == req.inv
  {
  }

  /** What _kgsl_gpumem_sync_cache does: return a code without touching
    * the cache, or run kgsl_cache_range_op over a range and return its
    * result. */
  datatype SyncAction = Return(code: int) | RangeOp(op: CacheOp, offset: nat, length: nat)

  function GpumemSyncCache(entry: Option<MemDesc>, offset: nat, length: nat, req: CacheRequest): (r: SyncAction)
    ensures entry.None? || entry.value.secure ==> r == Return(0)
    ensures entry.Some? && !entry.value.secure && !req.clean && !req.inv ==> r == Return(-EINVAL)
    ensures r.RangeOp? ==>
              entry.Some? && !entry.value.secure &&
              entry.value.cacheMode != Uncached && entry.value.cacheMode != WriteCombine &&
              Some(r.op) == SelectCacheOp(req) &&
              (if req.range then r.offset == offset && r.length == length
               else r.offset == 0 && r.length == entry.value.size)
  {
    match entry
    case None => Return(0)
    case Some(md) =>
      if md.secure then Return(0)
      else match SelectCacheOp(req)
        case None => Return(-EINVAL)
        case Some(op) =>
          var (off, len) := if req.range then (offset, length) else (0, md.size);
          if md.cacheMode != Uncached && md.cacheMode != WriteCombine then RangeOp(op, off, len)
          else Return(0)
  }

  /** A well-formed request on cached, non-secure memory always reaches
    * the cache. */
  lemma SyncReachesCache(md: MemDesc, offset: nat, length: nat, req: CacheRequest)
    requires !md.secure && (req.clean || req.inv)
    requires md.cacheMode == WriteThrough || md.cacheMode == WriteBack
    ensures GpumemSyncCache(Some(md), offset, length, req).RangeOp?
  {
  }

  /** Allocation flags: the cache mode field and the other bits. */
  datatype MemFlags = MemFlags(cacheMode: CacheMode, otherBits: nat)

  /** kgsl_filter_cachemode: on arm64 a write-through request becomes
    * write-back; elsewhere the flags pass unchanged. */
  function FilterCachemode(flags: MemFlags, arm64: bool): (r: MemFlags)
    ensures r.otherBits == flags.otherBits
    ensures arm64 ==> r.cacheMode != WriteThrough
    ensures r.cacheMode != flags.cacheMode ==> arm64 && flags.cacheMode == WriteThrough && r.cacheMode == WriteBack
  {
    if arm64 && flags.cacheMode == WriteThrough then flags.(cacheMode := WriteBack) else flags
  }

  /** Filtering twice is filtering once. */
  lemma FilterCachemodeIdempotent(flags: MemFlags, arm64: bool)
    ensures FilterCachemode(FilterCachemode(flags, arm64), arm64) == FilterCachemode(flags, arm64)
  {
  }

  datatype VmFlag = VmRead | VmWrite

  /** check_vma_flags: the vma must allow reading and, unless the memory
    * is GPU read-only, writing. */
  function CheckVmaFlags(vmFlags: set<VmFlag>, gpuReadOnly: bool): (r: int)
    ensures r == 0 || r == -EFAULT
    ensures r == 0 <==> VmRead in vmFlags && (gpuReadOnly || VmWrite in vmFlags)
  {
    var requested := if gpuReadOnly then {VmRead} else {VmRead, VmWrite};
    if requested <= vmFlags then 0 else -EFAULT
  }
}

/**
 * The gcc 4.7+ profiling data handler of kernel/gcov/gcc_4_7.c: the
 * serialiser into the .gcda file format, counter reset and merge, the
 * file iterator and the list of profiling data sets.
 *
 * The .gcda image is modelled as a sequence of 32-bit words (every store
 * of the serialiser is a whole u32 at a multiple of 4), byte offsets as in
 * the source. Counter values are the 64-bit patterns of gcov_type, in
 * [0, 2^64), and adding them wraps at 2^64. The tag constants are those
 * of kernel/gcov/gcov.h, which is not part of this model, and
 * GCOV_COUNTERS is the value for gcc 10 and later.
 */
module Gcov {
  import opened Wrappers

  const GCOV_COUNTERS: int := 8
  const GCOV_TAG_FUNCTION_LENGTH: int := 3
  const GCOV_DATA_MAGIC: int := 0x6763_6461
  const GCOV_TAG_FUNCTION: int := 0x0100_0000
  const PAGE_SIZE: int := 4096
  const ITER_STRIDE: int := PAGE_SIZE

  /** GCOV_TAG_FOR_COUNTER(count): 0x01a10000 + (count << 17). */
  function TagForCounter(t: int): (r: int)
    requires 0 <= t < GCOV_COUNTERS
    ensures IsU32(r)
  {
    0x01a1_0000 + t * 0x2_0000
  }

  /** Per-function profiling data: one value array per active counter type. */
  datatype FnInfo = FnInfo(ident: int, linenoChecksum: int, cfgChecksum: int, ctrs: seq<seq<int>>)

  /** Number of active counter types from position t on. */
  function NumActiveFrom(merge: seq<bool>, t: nat): nat
    requires t <= |merge|
    decreases |merge| - t
  {
    if t == |merge| then 0 else (if merge[t] then 1 else 0) + NumActiveFrom(merge, t + 1)
  }

  predicate U64Values(vals: seq<int>)
  {
    forall i :: 0 <= i < |vals| ==> IsU64(vals[i])
  }

  /** A function record matching the active counter types of its data set. */
  predicate FnValid(merge: seq<bool>, f: FnInfo)
  {
    && |merge| == GCOV_COUNTERS
    && IsU32(f.ident) && IsU32(f.linenoChecksum) && IsU32(f.cfgChecksum)
    && |f.ctrs| == NumActiveFrom(merge, 0)
    && forall c :: 0 <= c < |f.ctrs| ==> U64Values(f.ctrs[c]) && |f.ctrs[c]| < U32
  }

  predicate FnsValid(merge: seq<bool>, fns: seq<FnInfo>)
  {
    forall i :: 0 <= i < |fns| ==> FnValid(merge, fns[i])
  }

  // ---------------------------------------------------------------
  // The .gcda image
  // ---------------------------------------------------------------

  /** A 64-bit value as two 32-bit words, the low part first. */
  function U64Words(v: int): seq<int>
  {
    [v % U32, v / U32]
  }

  function ValuesWords(vals: seq<int>): seq<int>
  {
    if |vals| == 0 then [] else U64Words(vals[0]) + ValuesWords(vals[1..])
  }

  /** A counter record: tag, length in words (num * 2 in unsigned int,
    * which wraps from 2^31 values on), then the values. */
  function CounterRecord(t: int, vals: seq<int>): seq<int>
    requires 0 <= t < GCOV_COUNTERS
  {
    [TagForCounter(t), ToU32(|vals| * 2)] + ValuesWords(vals)
  }

  /** Counter records of the active types from t on; ctrs[j] belongs to
    * the first active type at or after t. */
  function CtrsWords(merge: seq<bool>, ctrs: seq<seq<int>>, t: nat, j: nat): seq<int>
    requires |merge| == GCOV_COUNTERS && t <= |merge|
    requires j + NumActiveFrom(merge, t) == |ctrs|
    decreases |merge| - t
  {
    if t == |merge| then []
    else if merge[t] then CounterRecord(t, ctrs[j]) + CtrsWords(merge, ctrs, t + 1, j + 1)
    else CtrsWords(merge, ctrs, t + 1, j)
  }

  function FnHeader(f: FnInfo): seq<int>
  {
    [GCOV_TAG_FUNCTION, GCOV_TAG_FUNCTION_LENGTH, f.ident, f.linenoChecksum, f.cfgChecksum]
  }

  function FnWords(merge: seq<bool>, f: FnInfo): seq<int>
    requires FnValid(merge, f)
  {
    FnHeader(f) + CtrsWords(merge, f.ctrs, 0, 0)
  }

  function FnsWords(merge: seq<bool>, fns: seq<FnInfo>): seq<int>
    requires FnsValid(merge, fns)
  {
    if |fns| == 0 then [] else FnWords(merge, fns[0]) + FnsWords(merge, fns[1..])
  }

  /** The whole file: magic, version, stamp, then the function records. */
  function GcdaWords(version: int, stamp: int, merge: seq<bool>, fns: seq<FnInfo>): seq<int>
    requires FnsValid(merge, fns)
  {
    [GCOV_DATA_MAGIC, version, stamp] + FnsWords(merge, fns)
  }

  // ---------------------------------------------------------------
  // The size formula
  // ---------------------------------------------------------------

  /** Bytes of the counter records: 8 + 8 * num for each one. */
  function CtrsSize(ctrs: seq<seq<int>>): int
  {
    if |ctrs| == 0 then 0 else 8 + 8 * |ctrs[0]| + CtrsSize(ctrs[1..])
  }

  /** Bytes of the function records: 20 plus the counter records each. */
  function FnsSize(fns: seq<FnInfo>): int
  {
    if |fns| == 0 then 0 else 20 + CtrsSize(fns[0].ctrs) + FnsSize(fns[1..])
  }

  lemma {:induction false} ValuesWordsLength(vals: seq<int>)
    ensures |ValuesWords(vals)| == 2 * |vals|
  {
    if |vals| > 0 {
      ValuesWordsLength(vals[1..]);
    }
  }

  lemma {:induction false} CtrsWordsLength(merge: seq<bool>, ctrs: seq<seq<int>>, t: nat, j: nat)
    requires |merge| == GCOV_COUNTERS && t <= |merge|
    requires j + NumActiveFrom(merge, t) == |ctrs|
    ensures 4 * |CtrsWords(merge, ctrs, t, j)| == CtrsSize(ctrs[j..])
    decreases |merge| - t
  {
    if t == |merge| {
      assert ctrs[j..] == [];
    } else if merge[t] {
      CtrsWordsLength(merge, ctrs, t + 1, j + 1);
      ValuesWordsLength(ctrs[j]);
      assert ctrs[j..][1..] == ctrs[j + 1..];
    } else {
      CtrsWordsLength(merge, ctrs, t + 1, j);
    }
  }

  /** The serialised size is 12 + the sum over functions of
    * (20 + the sum over active counters of (8 + 8 * num)). */
  lemma {:induction false} GcdaSize(version: int, stamp: int, merge: seq<bool>, fns: seq<FnInfo>)
    requires FnsValid(merge, fns)
    ensures 4 * |GcdaWords(version, stamp, merge, fns)| == 12 + FnsSize(fns)
  {
    FnsWordsLength(merge, fns);
  }

  lemma {:induction false} FnsWordsLength(merge: seq<bool>, fns: seq<FnInfo>)
    requires FnsValid(merge, fns)
    ensures 4 * |FnsWords(merge, fns)| == FnsSize(fns)
  {
    if |fns| > 0 {
      CtrsWordsLength(merge, fns[0].ctrs, 0, 0);
      assert fns[0].ctrs[0..] == fns[0].ctrs;
      FnsWordsLength(merge, fns[1..]);
    }
  }

  // ---------------------------------------------------------------
  // Stores
  // ---------------------------------------------------------------

  /** store_gcov_u32: writes v at byte offset off when there is a buffer,
    * and always reports 4 bytes. */
  method StoreU32(buffer: array?<int>, off: int, v: int) returns (n: int)
    requires 0 <= off && off % 4 == 0
    requires buffer != null ==> off / 4 < buffer.Length
    modifies buffer
    ensures n == 4
    ensures buffer != null ==> buffer[..] == old(buffer[..])[off / 4 := v]
  {
    if buffer != null {
      buffer[off / 4] := v;
    }
    n := 4;
  }

  /** store_gcov_u64: the low 32 bits, then the high 32 bits; 8 bytes. */
  method StoreU64(buffer: array?<int>, off: int, v: int) returns (n: int)
    requires 0 <= off && off % 4 == 0
    requires buffer != null ==> off / 4 + 1 < buffer.Length
    modifies buffer
    ensures n == 8
    ensures buffer != null ==> buffer[..] == old(buffer[..])[off / 4 := v % U32][off / 4 + 1 := v / U32]
  {
    if buffer != null {
      buffer[off / 4] := v % U32;
      buffer[off / 4 + 1] := v / U32;
    }
    n := 8;
  }

  /** The two words of a 64-bit value give it back, and each fits in u32. */
  lemma U64WordsRoundTrip(v: int)
    requires IsU64(v)
    ensures IsU32(U64Words(v)[0]) && IsU32(U64Words(v)[1])
    ensures U64Words(v)[0] + U64Words(v)[1] * U32 == v
  {
  }

  /** The words written so far: the prefix `out` sits at the start of the
    * buffer (when there is one) and pos counts its bytes. */
  ghost predicate Emitted(buffer: array?<int>, pos: int, out: seq<int>, total: seq<int>)
    reads buffer
  {
    && pos == 4 * |out|
    && |total| >= |out|
    && total[..|out|] == out
    && (buffer != null ==> |total| <= buffer.Length && buffer[..|out|] == out)
  }

  /** Emits one u32 word, the next one of `total`. */
  method Emit32(buffer: array?<int>, pos: int, ghost out: seq<int>, ghost total: seq<int>, v: int)
    returns (pos': int, ghost out': seq<int>)
    requires Emitted(buffer, pos, out, total)
    requires |out| < |total| && total[|out|] == v
    modifies buffer
    ensures out' == out + [v] && Emitted(buffer, pos', out', total)
  {
    var n := StoreU32(buffer, pos, v);
    pos' := pos + n;
    out' := out + [v];
    assert total[..|out'|] == total[..|out|] + [v];
  }

  /** Emits one u64 value as its two words, the next two of `total`. */
  method Emit64(buffer: array?<int>, pos: int, ghost out: seq<int>, ghost total: seq<int>, v: int)
    returns (pos': int, ghost out': seq<int>)
    requires Emitted(buffer, pos, out, total)
    requires |out| + 1 < |total| && total[|out|] == v % U32 && total[|out| + 1] == v / U32
    modifies buffer
    ensures out' == out + U64Words(v) && Emitted(buffer, pos', out', total)
  {
    var n := StoreU64(buffer, pos, v);
    pos' := pos + n;
    out' := out + U64Words(v);
    assert total[..|out'|] == total[..|out|] + U64Words(v);
  }

  /** Emits a list of u32 words, the next ones of `total`. */
  method EmitWords(buffer: array?<int>, pos: int, ghost out: seq<int>, ghost total: seq<int>,
                   ws: seq<int>, ghost rest: seq<int>)
    returns (pos': int, ghost out': seq<int>)
    requires Emitted(buffer, pos, out, total)
    requires out + (ws + rest) == total
    modifies buffer
    ensures Emitted(buffer, pos', out', total)
    ensures out' == out + ws && out' + rest == total
  {
    pos', out' := pos, out;
    var i := 0;
    while i < |ws|
      invariant 0 <= i <= |ws|
      invariant out' == out + ws[..i]
      invariant Emitted(buffer, pos', out', total)
      invariant out' + (ws[i..] + rest) == total
    {
      assert ws[i..] == [ws[i]] + ws[i + 1..];
      NextWords(out', ws[i..] + rest, total, [ws[i]], ws[i + 1..] + rest);
      pos', out' := Emit32(buffer, pos', out', total, ws[i]);
      assert ws[..i + 1] == ws[..i] + [ws[i]];
      i := i + 1;
    }
    assert ws[..i] == ws;
  }

  /** Splitting off the head of a sequence known to be a prefix of `total`. */
  lemma NextWords(out: seq<int>, rest: seq<int>, total: seq<int>, w: seq<int>, rest': seq<int>)
    requires out + rest == total && rest == w + rest'
    ensures (out + w) + rest' == total
    ensures forall i :: 0 <= i < |w| ==> total[|out| + i] == w[i]
  {
    assert out + rest == (out + w) + rest';
  }

  // ---------------------------------------------------------------
  // Counter activity, compatibility and the serialiser
  // ---------------------------------------------------------------

  /** counter_active: whether merge function `type` is set. */
  function CounterActive(info: GcovInfo, t: int): (r: int)
    reads info
    requires info.Valid() && 0 <= t < GCOV_COUNTERS
    ensures r == 1 <==> info.merge[t]
    ensures r == 0 || r == 1
  {
    if info.merge[t] then 1 else 0
  }

  /** gcov_info_is_compatible: equal time stamps. */
  function IsCompatible(info1: GcovInfo, info2: GcovInfo): (r: bool)
    reads info1, info2
    ensures r <==> info1.stamp == info2.stamp
  {
    info1.stamp == info2.stamp
  }

  /** Compatibility is an equivalence on data sets. */
  lemma CompatibleEquivalence(a: GcovInfo, b: GcovInfo, c: GcovInfo)
    ensures IsCompatible(a, a)
    ensures IsCompatible(a, b) ==> IsCompatible(b, a)
    ensures IsCompatible(a, b) && IsCompatible(b, c) ==> IsCompatible(a, c)
  {
  }

  /** convert_to_gcda: serialises `info` into `buffer`, or only counts
    * the bytes when buffer is null. The count is the same either way, so
    * the dry run sizes the buffer exactly. */
  method ConvertToGcda(buffer: array?<int>, info: GcovInfo) returns (pos: int)
    requires info.Valid()
    requires buffer != null ==> |info.Words()| <= buffer.Length
    modifies buffer
    ensures pos == 4 * |info.Words()|
    ensures buffer != null ==> buffer[..|info.Words()|] == info.Words()
  {
    ghost var total := info.Words();
    var merge, fns := info.merge, info.functions;
    pos := 0;
    assert fns[0..] == fns;
    ghost var out: seq<int> := [];
    pos, out := EmitWords(buffer, pos, out, total, [GCOV_DATA_MAGIC, info.version, info.stamp], FnsWords(merge, fns));
    var fi := 0;
    while fi < |fns|
      invariant 0 <= fi <= |fns|
      invariant Emitted(buffer, pos, out, total)
      invariant out + FnsWords(merge, fns[fi..]) == total
    {
      var f := fns[fi];
      assert fns[fi..][1..] == fns[fi + 1..];
      ghost var rest := FnsWords(merge, fns[fi + 1..]);
      pos, out := EmitFunction(buffer, pos, out, total, merge, f, rest);
      fi := fi + 1;
    }
    assert out == total;
  }

  /** One function record of convert_to_gcda: the five header words, then
    * a counter record for every active counter type. */
  method EmitFunction(buffer: array?<int>, pos: int, ghost out: seq<int>, ghost total: seq<int>,
                      merge: seq<bool>, f: FnInfo, ghost rest: seq<int>)
    returns (pos': int, ghost out': seq<int>)
    requires FnValid(merge, f)
    requires Emitted(buffer, pos, out, total)
    requires out + (FnWords(merge, f) + rest) == total
    modifies buffer
    ensures Emitted(buffer, pos', out', total)
    ensures out' + rest == total
  {
    pos', out' := EmitWords(buffer, pos, out, total, FnHeader(f), CtrsWords(merge, f.ctrs, 0, 0) + rest);
    var t := 0;
    var j := 0;
    while t < GCOV_COUNTERS
      invariant 0 <= t <= GCOV_COUNTERS
      invariant j + NumActiveFrom(merge, t) == |f.ctrs|
      invariant Emitted(buffer, pos', out', total)
      invariant out' + (CtrsWords(merge, f.ctrs, t, j) + rest) == total
    {
      if merge[t] {
        pos', out' := EmitCounter(buffer, pos', out', total, t, f.ctrs[j], CtrsWords(merge, f.ctrs, t + 1, j + 1) + rest);
        j := j + 1;
      }
      t := t + 1;
    }
  }

  /** One counter record: tag, value count times two, then the values. */
  method EmitCounter(buffer: array?<int>, pos: int, ghost out: seq<int>, ghost total: seq<int>,
                     t: int, vals: seq<int>, ghost rest: seq<int>)
    returns (pos': int, ghost out': seq<int>)
    requires 0 <= t < GCOV_COUNTERS && U64Values(vals)
    requires Emitted(buffer, pos, out, total)
    requires out + (CounterRecord(t, vals) + rest) == total
    modifies buffer
    ensures Emitted(buffer, pos', out', total)
    ensures out' + rest == total
  {
    pos', out' := EmitWords(buffer, pos, out, total, [TagForCounter(t), ToU32(|vals| * 2)], ValuesWords(vals) + rest);
    pos', out' := EmitValues(buffer, pos', out', total, vals, rest);
  }

  /** The values of a counter record, each as two words. */
  method EmitValues(buffer: array?<int>, pos: int, ghost out: seq<int>, ghost total: seq<int>,
                    vals: seq<int>, ghost rest: seq<int>)
    returns (pos': int, ghost out': seq<int>)
    requires Emitted(buffer, pos, out, total)
    requires out + (ValuesWords(vals) + rest) == total
    modifies buffer
    ensures Emitted(buffer, pos', out', total)
    ensures out' + rest == total
  {
    pos', out' := pos, out;
    var k := 0;
    assert vals[0..] == vals;
    while k < |vals|
      invariant 0 <= k <= |vals|
      invariant Emitted(buffer, pos', out', total)
      invariant out' + (ValuesWords(vals[k..]) + rest) == total
    {
      assert vals[k..][1..] == vals[k + 1..];
      NextWords(out', ValuesWords(vals[k..]) + rest, total, U64Words(vals[k]), ValuesWords(vals[k + 1..]) + rest);
      pos', out' := Emit64(buffer, pos', out', total, vals[k]);
      k := k + 1;
    }
  }

  // ---------------------------------------------------------------
  // Reset and merge of counters
  // ---------------------------------------------------------------

  function Zeros(n: nat): (r: seq<int>)
    ensures |r| == n && forall k :: 0 <= k < n ==> r[k] == 0
  {
    seq(n, _ => 0)
  }

  /** A function record with every counter value array zeroed. */
  function ResetFn(f: FnInfo): FnInfo
  {
    f.(ctrs := seq(|f.ctrs|, c requires 0 <= c < |f.ctrs| => Zeros(|f.ctrs[c]|)))
  }

  function ResetFns(fns: seq<FnInfo>): seq<FnInfo>
  {
    seq(|fns|, i requires 0 <= i < |fns| => ResetFn(fns[i]))
  }

  /** Elementwise sum of the first |s| values, wrapping at 2^64. */
  function AddValues(d: seq<int>, s: seq<int>): seq<int>
  {
    seq(|d|, k requires 0 <= k < |d| => if k < |s| then (d[k] + s[k]) % U64 else d[k])
  }

  function AddFn(d: FnInfo, s: FnInfo): FnInfo
  {
    d.(ctrs := seq(|d.ctrs|, c requires 0 <= c < |d.ctrs| =>
      if c < |s.ctrs| then AddValues(d.ctrs[c], s.ctrs[c]) else d.ctrs[c]))
  }

  function AddFns(d: seq<FnInfo>, s: seq<FnInfo>): seq<FnInfo>
  {
    seq(|d|, i requires 0 <= i < |d| => if i < |s| then AddFn(d[i], s[i]) else d[i])
  }

  /** The destination has room for every source counter value. */
  predicate Fits(d: seq<FnInfo>, s: seq<FnInfo>)
  {
    && |s| <= |d|
    && (forall i :: 0 <= i < |s| ==> |s[i].ctrs| <= |d[i].ctrs|)
    && (forall i, c :: 0 <= i < |s| && 0 <= c < |s[i].ctrs| ==> |s[i].ctrs[c]| <= |d[i].ctrs[c]|)
  }

  /** Resetting and then adding a data set of the same shape copies its
    * counts: the reset zeroes every counter and the add is elementwise. */
  lemma ResetThenAddCopies(d: seq<FnInfo>, s: seq<FnInfo>)
    requires |d| == |s|
    requires forall i :: 0 <= i < |s| ==> d[i].ctrs == ResetFn(s[i]).ctrs && d[i].ident == s[i].ident
    requires forall i :: 0 <= i < |s| ==> d[i] == s[i].(ctrs := d[i].ctrs)
    requires forall i, c :: 0 <= i < |s| && 0 <= c < |s[i].ctrs| ==> U64Values(s[i].ctrs[c])
    ensures AddFns(d, s) == s
  {
    forall i | 0 <= i < |s|
      ensures AddFn(d[i], s[i]) == s[i]
    {
      forall c | 0 <= c < |s[i].ctrs|
        ensures AddValues(d[i].ctrs[c], s[i].ctrs[c]) == s[i].ctrs[c]
      {
        assert d[i].ctrs[c] == Zeros(|s[i].ctrs[c]|);
      }
    }
  }

  /** Reset and add keep the record shape, hence the serialised size. */
  lemma {:induction false} SizeKeptByReset(fns: seq<FnInfo>)
    ensures FnsSize(ResetFns(fns)) == FnsSize(fns)
  {
    if |fns| > 0 {
      assert ResetFns(fns)[1..] == ResetFns(fns[1..]);
      CtrsSizeByShape(ResetFn(fns[0]).ctrs, fns[0].ctrs);
      SizeKeptByReset(fns[1..]);
    }
  }

  lemma {:induction false} CtrsSizeByShape(a: seq<seq<int>>, b: seq<seq<int>>)
    requires |a| == |b| && forall c :: 0 <= c < |a| ==> |a[c]| == |b[c]|
    ensures CtrsSize(a) == CtrsSize(b)
  {
    if |a| > 0 {
      CtrsSizeByShape(a[1..], b[1..]);
    }
  }

  // ---------------------------------------------------------------
  // Profiling data sets
  // ---------------------------------------------------------------

  /** struct gcov_info. `merge[t]` records whether merge function t is
    * set, that is whether counter type t is active. The `next` link is
    * modelled by InfoList below. */
  class GcovInfo {
    var version: int
    var stamp: int
    var filename: string
    var merge: seq<bool>
    var functions: seq<FnInfo>

    ghost predicate Valid()
      reads this
    {
      IsU32(version) && IsU32(stamp) && |merge| == GCOV_COUNTERS && FnsValid(merge, functions)
    }

    /** The .gcda image of this data set. */
    function Words(): seq<int>
      reads this
      requires Valid()
    {
      GcdaWords(version, stamp, merge, functions)
    }

    constructor (version: int, stamp: int, filename: string, merge: seq<bool>, functions: seq<FnInfo>)
      requires IsU32(version) && IsU32(stamp) && |merge| == GCOV_COUNTERS && FnsValid(merge, functions)
      ensures Valid()
      ensures this.version == version && this.stamp == stamp && this.filename == filename
      ensures this.merge == merge && this.functions == functions
    {
      this.version := version;
      this.stamp := stamp;
      this.filename := filename;
      this.merge := merge;
      this.functions := functions;
    }

    /** num_counter_active: the number of active counter types. */
    method NumCounterActive() returns (result: int)
      requires Valid()
      ensures result == NumActiveFrom(merge, 0)
    {
      result := 0;
      var i := 0;
      while i < GCOV_COUNTERS
        invariant 0 <= i <= GCOV_COUNTERS
        invariant result + NumActiveFrom(merge, i) == NumActiveFrom(merge, 0)
      {
        if merge[i] {
          result := result + 1;
        }
        i := i + 1;
      }
    }

    /** gcov_info_reset: zeroes every active counter array of every
      * function, nothing else. */
    method Reset()
      requires Valid()
      modifies this
      ensures functions == ResetFns(old(functions))
      ensures version == old(version) && stamp == old(stamp) && filename == old(filename) && merge == old(merge)
    {
      ghost var f0 := functions;
      var fi := 0;
      while fi < |functions|
        invariant 0 <= fi <= |functions| == |f0|
        invariant |merge| == GCOV_COUNTERS && FnsValid(merge, f0)
        invariant forall i :: 0 <= i < fi ==> functions[i] == ResetFn(f0[i])
        invariant forall i :: fi <= i < |f0| ==> functions[i] == f0[i]
        invariant version == old(version) && stamp == old(stamp) && filename == old(filename) && merge == old(merge)
      {
        var ctrs := functions[fi].ctrs;
        var t := 0;
        var j := 0;
        while t < GCOV_COUNTERS
          invariant 0 <= t <= GCOV_COUNTERS
          invariant |ctrs| == |f0[fi].ctrs| && j + NumActiveFrom(merge, t) == |ctrs|
          invariant forall c :: 0 <= c < j ==> ctrs[c] == Zeros(|f0[fi].ctrs[c]|)
          invariant forall c :: j <= c < |ctrs| ==> ctrs[c] == f0[fi].ctrs[c]
        {
          if merge[t] {
            ctrs := ctrs[j := Zeros(|ctrs[j]|)];
            j := j + 1;
          }
          t := t + 1;
        }
        assert ctrs == ResetFn(f0[fi]).ctrs;
        functions := functions[fi := functions[fi].(ctrs := ctrs)];
        fi := fi + 1;
      }
      assert functions == ResetFns(f0);
    }

    /** gcov_info_add: adds the counts of `src` into this data set,
      * elementwise, for the active counter types of `src`. */
    method Add(src: GcovInfo)
      requires Valid() && src.Valid()
      requires Fits(functions, src.functions)
      modifies this
      ensures functions == AddFns(old(functions), old(src.functions))
      ensures version == old(version) && stamp == old(stamp) && filename == old(filename) && merge == old(merge)
    {
      var sfns, smerge := src.functions, src.merge;
      ghost var f0 := functions;
      var fi := 0;
      while fi < |sfns|
        invariant 0 <= fi <= |sfns| <= |functions| == |f0|
        invariant |smerge| == GCOV_COUNTERS && FnsValid(smerge, sfns) && Fits(f0, sfns)
        invariant forall i :: 0 <= i < fi ==> functions[i] == AddFn(f0[i], sfns[i])
        invariant forall i :: fi <= i < |f0| ==> functions[i] == f0[i]
        invariant version == old(version) && stamp == old(stamp) && filename == old(filename) && merge == old(merge)
      {
        var dctrs := AddCounters(functions[fi].ctrs, sfns[fi].ctrs, smerge);
        assert dctrs == AddFn(f0[fi], sfns[fi]).ctrs;
        functions := functions[fi := functions[fi].(ctrs := dctrs)];
        fi := fi + 1;
      }
      assert functions == AddFns(f0, sfns);
    }
  }

  /** The counter-type loop of gcov_info_add for one function: the
    * pointers into both counter arrays advance together, on the active
    * types of the source only. */
  method AddCounters(d: seq<seq<int>>, s: seq<seq<int>>, smerge: seq<bool>) returns (r: seq<seq<int>>)
    requires |smerge| == GCOV_COUNTERS && |s| == NumActiveFrom(smerge, 0) && |s| <= |d|
    requires forall c :: 0 <= c < |s| ==> |s[c]| <= |d[c]|
    ensures |r| == |d|
    ensures forall c :: 0 <= c < |s| ==> r[c] == AddValues(d[c], s[c])
    ensures forall c :: |s| <= c < |d| ==> r[c] == d[c]
  {
    r := d;
    var t := 0;
    var j := 0;
    while t < GCOV_COUNTERS
      invariant 0 <= t <= GCOV_COUNTERS
      invariant |r| == |d| && j + NumActiveFrom(smerge, t) == |s|
      invariant forall c :: 0 <= c < j ==> r[c] == AddValues(d[c], s[c])
      invariant forall c :: j <= c < |d| ==> r[c] == d[c]
    {
      if smerge[t] {
        var vals := AddCounter(r[j], s[j]);
        r := r[j := vals];
        j := j + 1;
      }
      t := t + 1;
    }
  }

  /** The innermost loop of gcov_info_add over one counter's values. */
  method AddCounter(d: seq<int>, s: seq<int>) returns (r: seq<int>)
    requires |s| <= |d|
    ensures r == AddValues(d, s)
  {
    r := d;
    var k := 0;
    while k < |s|
      invariant 0 <= k <= |s| && |r| == |d|
      invariant forall i :: 0 <= i < k ==> r[i] == (d[i] + s[i]) % U64
      invariant forall i :: k <= i < |d| ==> r[i] == d[i]
    {
      r := r[k := (r[k] + s[k]) % U64];
      k := k + 1;
    }
  }

  // ---------------------------------------------------------------
  // File iterator
  // ---------------------------------------------------------------

  /** The bytes gcov_iter_write hands to the seq_file at byte position
    * pos, as words: at most one stride, cut at the end of the image. */
  function Chunk(words: seq<int>, pos: int): (r: seq<int>)
    requires 0 <= pos < 4 * |words|
    ensures 0 < |r| <= ITER_STRIDE / 4 && pos / 4 + |r| <= |words|
    ensures pos % 4 == 0 ==> 4 * |r| == Min(ITER_STRIDE, 4 * |words| - pos)
    ensures forall k :: 0 <= k < |r| ==> r[k] == words[pos / 4 + k]
  {
    var len := if pos + ITER_STRIDE > 4 * |words| then 4 * |words| - pos else ITER_STRIDE;
    words[pos / 4 .. (pos + len) / 4]
  }

  /** struct gcov_iterator: the data set, its serialised image, the image
    * size in bytes and the current file position. */
  class GcovIterator {
    const info: GcovInfo
    const buffer: array<int>
    const size: int
    var pos: int

    ghost predicate Valid()
      reads this
    {
      size == 4 * buffer.Length && 0 <= pos && pos % ITER_STRIDE == 0
    }

    constructor (info: GcovInfo, buffer: array<int>, size: int)
      requires size == 4 * buffer.Length
      ensures Valid() && pos == 0
      ensures this.info == info && this.buffer == buffer && this.size == size
    {
      this.info := info;
      this.buffer := buffer;
      this.size := size;
      pos := 0;
    }

    /** gcov_iter_start: back to the start of the file. */
    method Start()
      requires Valid()
      modifies this
      ensures Valid() && pos == 0
    {
      pos := 0;
    }

    /** gcov_iter_next: one stride further unless already at the end;
      * -EINVAL once the position is at or past the end. */
    method Next() returns (err: int)
      requires Valid()
      modifies this
      ensures Valid()
      ensures old(pos) < size ==> pos == old(pos) + ITER_STRIDE
      ensures old(pos) >= size ==> pos == old(pos)
      ensures err == 0 <==> pos < size
      ensures err != 0 ==> err == -EINVAL
    {
      if pos < size {
        pos := pos + ITER_STRIDE;
      }
      if pos >= size {
        return -EINVAL;
      }
      return 0;
    }

    /** gcov_iter_write: the chunk at the current position, or -EINVAL
      * with nothing written at or past the end. */
    method Write() returns (err: int, chunk: seq<int>)
      requires Valid()
      ensures pos >= size ==> err == -EINVAL && chunk == []
      ensures pos < size ==> err == 0 && chunk == Chunk(buffer[..], pos)
    {
      if pos >= size {
        return -EINVAL, [];
      }
      var len := ITER_STRIDE;
      if pos + len > size {
        len := size - pos;
      }
      chunk := buffer[pos / 4 .. (pos + len) / 4];
      err := 0;
    }
  }

  /** gcov_iter_new: the dry run of convert_to_gcda sizes the buffer and
    * the second run fills it. Either allocation may fail (the two flags
    * stand for kzalloc and vmalloc), and then there is no iterator. */
  method IterNew(info: GcovInfo, iterAllocFails: bool, bufferAllocFails: bool) returns (r: Option<GcovIterator>)
    requires info.Valid()
    ensures r.None? <==> iterAllocFails || bufferAllocFails
    ensures r.Some? ==> fresh(r.value) && fresh(r.value.buffer)
    ensures r.Some? ==> r.value.Valid() && r.value.info == info && r.value.pos == 0
    ensures r.Some? ==> r.value.buffer[..] == info.Words() && r.value.size == 4 * |info.Words()|
  {
    if iterAllocFails {
      return None;
    }
    var size := ConvertToGcda(null, info);
    if bufferAllocFails {
      return None;
    }
    var buffer := new int[size / 4];
    var n := ConvertToGcda(buffer, info);
    var it := new GcovIterator(info, buffer, size);
    return Some(it);
  }

  /** How the seq_file layer drives an iterator: start, then write and
    * advance until next reports the end. The concatenated output is the
    * whole .gcda image. */
  method ReadAll(it: GcovIterator) returns (out: seq<int>)
    requires it.Valid()
    modifies it
    ensures out == it.buffer[..]
  {
    ghost var w := it.buffer[..];
    it.Start();
    out := [];
    var err := 0;
    while err == 0
      invariant it.Valid() && it.buffer[..] == w && it.size == 4 * |w|
      invariant err == 0 ==> (it.pos < it.size || it.pos == 0) && out == w[..it.pos / 4]
      invariant err != 0 ==> out == w
      decreases it.size + ITER_STRIDE - it.pos, if err == 0 then 1 else 0
    {
      var werr, chunk := it.Write();
      if werr == 0 {
        assert w[..it.pos / 4] + chunk == w[..it.pos / 4 + |chunk|];
        out := out + chunk;
      }
      err := it.Next();
    }
  }

  // ---------------------------------------------------------------
  // The list of profiling data sets
  // ---------------------------------------------------------------

  /** Unlinking the entry at position i. */
  function Unlinked(s: seq<GcovInfo>, i: nat): (r: seq<GcovInfo>)
    requires i < |s|
    ensures |r| == |s| - 1
  {
    s[..i] + s[i + 1..]
  }

  /** Unlinking removes exactly the one entry, keeping the others. */
  lemma UnlinkedContents(s: seq<GcovInfo>, i: nat)
    requires i < |s|
    ensures multiset(Unlinked(s, i)) == multiset(s) - multiset{s[i]}
    ensures forall k :: 0 <= k < i ==> Unlinked(s, i)[k] == s[k]
    ensures forall k :: i <= k < |s| - 1 ==> Unlinked(s, i)[k] == s[k + 1]
  {
    assert s == s[..i] + [s[i]] + s[i + 1..];
  }

  /** Linking an entry and unlinking the head gives the list back. */
  lemma LinkThenUnlinkHead(s: seq<GcovInfo>, info: GcovInfo)
    ensures Unlinked([info] + s, 0) == s
  {
    assert ([info] + s)[1..] == s;
  }

  /** gcov_info_head and the `next` links, as the sequence of data sets
    * from the head. A pointer to a list entry is its position here. */
  class InfoList {
    var infos: seq<GcovInfo>

    constructor ()
      ensures infos == []
    {
      infos := [];
    }

    /** gcov_info_next: the head for a NULL argument, else the successor;
      * None at the end of the list. */
    method Next(at: Option<nat>) returns (r: Option<GcovInfo>)
      requires at.Some? ==> at.value < |infos|
      ensures at.None? ==> r == (if |infos| == 0 then None else Some(infos[0]))
      ensures at.Some? ==> r == (if at.value + 1 < |infos| then Some(infos[at.value + 1]) else None)
    {
      var i := if at.None? then 0 else at.value + 1;
      if i < |infos| {
        r := Some(infos[i]);
      } else {
        r := None;
      }
    }

    /** gcov_info_link: prepends to the list. */
    method Link(info: GcovInfo)
      modifies this
      ensures infos == [info] + old(infos)
    {
      infos := [info] + infos;
    }

    /** gcov_info_unlink: the predecessor's link (or the head, when there
      * is no predecessor) skips the entry. */
    method Unlink(prev: Option<nat>, i: nat)
      requires i < |infos|
      requires prev.None? <==> i == 0
      requires prev.Some? ==> prev.value + 1 == i
      modifies this
      ensures infos == Unlinked(old(infos), i)
    {
      if prev.Some? {
        infos := infos[..prev.value + 1] + infos[i + 1..];
      } else {
        infos := infos[i + 1..];
      }
    }
  }
}

/**
 * Model of the Samsung display debug logs
 * (techpack/display/msm/samsung/ss_dsi_panel_debug.c): the event log
 * rings (the main log and the vsync log) read back one entry per read
 * through a static reader position, the text of a dumped entry, the
 * panic-time listing of the newest entries, and the SMMU mapping
 * debug lists.
 *
 * The sizes SS_XLOG_ENTRY, SS_XLOG_BUF_ALIGN_TIME and
 * SS_XLOG_PANIC_DBG_LENGTH come from a panel header that is not part
 * of this model; they are parameters of a log.  The logger that
 * writes entries and advances `last` is not part of this model either.
 */
module SsPanelDebug {
  import opened Wrappers

  /** One logged event (struct ss_tlog): its time in microseconds, the
    * name of the function that logged it and its data words. */
  datatype TLog = TLog(time: nat, name: seq<char>, data: seq<nat>)

  // ---------------------------------------------------------------
  // Text of the entries
  // ---------------------------------------------------------------

  function Spaces(n: nat): (r: seq<char>)
    ensures |r| == n && forall i :: 0 <= i < n ==> r[i] == ' '
  {
    seq(n, _ => ' ')
  }

  /** printf's field width: the text right-aligned in w columns. */
  function PadLeft(s: seq<char>, w: nat): (r: seq<char>)
    ensures |r| == Max(|s|, w)
    ensures r[|r| - |s|..] == s
    ensures forall i :: 0 <= i < |r| - |s| ==> r[i] == ' '
  {
    if |s| >= w then s else Spaces(w - |s|) + s
  }

  /** The time field of a dumped entry, "[%5llu.%6llu]:". */
  function TimeField(time: nat): seq<char> {
    "[" + PadLeft(Decimal(time / 1000000), 5) + "." + PadLeft(Decimal(time % 1000000), 6) + "]:"
  }

  /** The time field takes at least fifteen columns. */
  lemma TimeFieldWidth(time: nat)
    ensures |TimeField(time)| >= 15
  {
  }

  /** The time field filled with spaces up to the alignment column. */
  function AlignedTime(time: nat, align: nat): (r: seq<char>)
    ensures |r| == Max(|TimeField(time)|, align)
    ensures r[..|TimeField(time)|] == TimeField(time)
    ensures forall i :: |TimeField(time)| <= i < |r| ==> r[i] == ' '
  {
    var t := TimeField(time);
    if |t| < align then t + Spaces(align - |t|) else t
  }

  /** "%x " for each data word, in order. */
  function DataText(data: seq<nat>): seq<char> {
    if |data| == 0 then [] else DataText(data[..|data| - 1]) + HexText(data[|data| - 1]) + " "
  }

  /** The data text of the first i words is where the data text begins. */
  lemma {:induction false} DataTextPrefix(data: seq<nat>, i: nat)
    requires i <= |data|
    ensures DataText(data[..i]) <= DataText(data)
    decreases |data| - i
  {
    if i < |data| {
      DataTextPrefix(data, i + 1);
      assert data[..i + 1][..i] == data[..i];
    } else {
      assert data[..i] == data;
    }
  }

  /** The text of one dumped entry. */
  function EntryText(log: TLog, align: nat): seq<char> {
    AlignedTime(log.time, align) + log.name + " => " + DataText(log.data) + "\n"
  }

  /** A dumped entry starts with its time in at least `align` columns,
    * then its name and the arrow, and ends with a newline. */
  lemma EntryTextShape(log: TLog, align: nat)
    ensures var r := EntryText(log, align);
            var w := Max(|TimeField(log.time)|, align);
            |r| > w + |log.name| + 4 &&
            r[..|TimeField(log.time)|] == TimeField(log.time) &&
            r[w..w + |log.name| + 4] == log.name + " => " &&
            r[|r| - 1] == '\n'
  {
    PartsShape(AlignedTime(log.time, align), log.name, " => ", DataText(log.data), "\n", TimeField(log.time));
  }

  /** Where the parts of a text a + b + c + d + e sit. */
  lemma PartsShape(a: seq<char>, b: seq<char>, c: seq<char>, d: seq<char>, e: seq<char>, t: seq<char>)
    requires |t| <= |a| && a[..|t|] == t && |e| > 0
    ensures |a + b + c + d + e| > |a| + |b| + |c|
    ensures (a + b + c + d + e)[..|t|] == t
    ensures (a + b + c + d + e)[|a|..|a| + |b| + |c|] == b + c
    ensures (a + b + c + d + e)[|a + b + c + d + e| - 1] == e[|e| - 1]
  {
    var r := a + b + c + d + e;
    assert r[..|t|] == a[..|t|];
    assert r[|a|..|a| + |b| + |c|] == b + c;
  }

  /** The text of one entry in the panic listing, "[%llu.%3llu]%s=>"
    * and the data words. */
  function PanicHeader(log: TLog): seq<char> {
    "[" + Decimal(log.time / 1000000) + "." + PadLeft(Decimal(log.time % 1000000), 3) + "]" + log.name + "=>"
  }

  /** The ring slot that holds entry k. */
  function Slot(logs: seq<TLog>, k: nat): TLog
    requires |logs| > 0
  {
    logs[k % |logs|]
  }

  /** The panic listing from entry k down to entry 0, newest first, each
    * read from its slot k mod the ring size. */
  function Backwards(logs: seq<TLog>, k: int): seq<char>
    requires |logs| > 0
    decreases k + 1
  {
    if k < 0 then [] else PanicEntry(Slot(logs, k)) + Backwards(logs, k - 1)
  }

  /** Newest first: the listing from entry k begins with entry k's text
    * and ends with the listing from any older entry j, so entry 0 comes
    * last. */
  lemma BackwardsOrder(logs: seq<TLog>, k: int, j: int)
    requires |logs| > 0 && -1 <= j <= k
    ensures k >= 0 ==> PanicEntry(Slot(logs, k)) <= Backwards(logs, k)
    ensures |Backwards(logs, j)| <= |Backwards(logs, k)|
    ensures Backwards(logs, k)[|Backwards(logs, k)| - |Backwards(logs, j)|..] == Backwards(logs, j)
  {
    if k >= 0 {
      PrefixOfConcat(PanicEntry(Slot(logs, k)), Backwards(logs, k - 1), Backwards(logs, k));
    }
    BackwardsEndsWith(logs, k, j);
  }

  /** The listing from entry k ends with the listing from any older entry. */
  lemma BackwardsEndsWith(logs: seq<TLog>, k: int, j: int)
    requires |logs| > 0 && -1 <= j <= k
    ensures |Backwards(logs, j)| <= |Backwards(logs, k)|
    ensures Backwards(logs, k)[|Backwards(logs, k)| - |Backwards(logs, j)|..] == Backwards(logs, j)
  {
    BackwardsSplit(logs, k, j);
    SuffixOfAppend(Between(logs, k, j), Backwards(logs, j));
  }

  /** The texts of entries k down to j + 1. */
  function Between(logs: seq<TLog>, k: int, j: int): seq<char>
    requires |logs| > 0 && -1 <= j <= k
    decreases k - j
  {
    if k == j then [] else PanicEntry(Slot(logs, k)) + Between(logs, k - 1, j)
  }

  lemma {:induction false} BackwardsSplit(logs: seq<TLog>, k: int, j: int)
    requires |logs| > 0 && -1 <= j <= k
    ensures Backwards(logs, k) == Between(logs, k, j) + Backwards(logs, j)
    decreases k - j
  {
    if k > j {
      BackwardsSplit(logs, k - 1, j);
      Assoc(PanicEntry(Slot(logs, k)), Between(logs, k - 1, j), Backwards(logs, j));
    }
  }

  lemma SuffixOfAppend(p: seq<char>, t: seq<char>)
    ensures (p + t)[|p + t| - |t|..] == t
  {
  }

  /** One entry of the panic listing. */
  function PanicEntry(log: TLog): seq<char> {
    PanicHeader(log) + DataText(log.data)
  }

  /** What a C string buffer of n + 1 bytes keeps of a text. */
  function Clip(s: seq<char>, n: nat): (r: seq<char>)
    ensures r <= s && |r| == Min(|s|, n)
  {
    if |s| <= n then s else s[..n]
  }

  /** Two texts agree on the part a buffer keeps once the shorter one,
    * a prefix of the other, already fills it. */
  lemma ClipOfPrefix(s: seq<char>, whole: seq<char>, n: nat)
    requires s <= whole && |s| >= n
    ensures Clip(s, n) == Clip(whole, n)
  {
    assert s[..n] == whole[..n];
  }

  // ---------------------------------------------------------------
  // The reader position
  // ---------------------------------------------------------------

  /** What __ss_dump_xlog_calc_range leaves: whether an entry is to be
    * dumped, and the new first, last and reader position. */
  datatype Range = Range(needDump: bool, first: nat, last: nat, next: nat)

  /** __ss_dump_xlog_calc_range on the reader position `next` and the
    * logger's `last`, in unsigned 32-bit arithmetic: nothing to dump
    * when the reader has caught up; otherwise the range is brought
    * into the ring and clamped to one ring of entries, and the reader
    * moves one past `first`. */
  function CalcRange(next: nat, last: nat, entries: nat): (r: Range)
    requires 0 < entries < 0x8000_0000 && IsU32(next) && IsU32(last)
    ensures IsU32(r.first) && IsU32(r.last) && IsU32(r.next)
    ensures r.needDump <==> next != last
    ensures !r.needDump ==> r.first == next && r.last == last && r.next == next
    ensures r.needDump ==> r.first <= r.last && r.last - r.first <= entries && r.next == r.first + 1
    ensures r.needDump ==> r.last == last || (last < entries && r.last == last + entries)
    ensures r.needDump ==> r.first % entries == next % entries || r.first + entries == r.last
  {
    if last == next then Range(false, next, last, next)
    else
      var f1 := if last < next then next % entries else next;
      var l1 := if last < next && last < f1 then ToU32(last + entries) else last;
      RangeSteps(next, last, entries, f1, l1);
      var f2 := if ToU32(l1 - f1) > entries then ToU32(l1 - entries) else f1;
      Range(true, f2, l1, ToU32(f2 + 1))
  }

  /** The steps of calc_range in the order the C code takes them. */
  lemma CalcRangeIs(next: nat, last: nat, entries: nat, f1: nat, l1: nat, f2: nat)
    requires 0 < entries < 0x8000_0000 && IsU32(next) && IsU32(last) && last != next
    requires f1 == if last < next then next % entries else next
    requires l1 == if last < next && last < f1 then ToU32(last + entries) else last
    requires f2 == if ToU32(l1 - f1) > entries then ToU32(l1 - entries) else f1
    ensures CalcRange(next, last, entries) == Range(true, f2, l1, ToU32(f2 + 1))
  {
    var r := CalcRange(next, last, entries);
    assert r.first == f2 && r.last == l1;
  }

  /** The unsigned arithmetic of calc_range never wraps. */
  lemma RangeSteps(next: nat, last: nat, entries: nat, f1: nat, l1: nat)
    requires 0 < entries < 0x8000_0000 && IsU32(next) && IsU32(last) && last != next
    requires f1 == if last < next then next % entries else next
    requires l1 == if last < next && last < f1 then ToU32(last + entries) else last
    ensures f1 % entries == next % entries && f1 <= next
    ensures l1 == last || (last < entries && l1 == last + entries)
    ensures f1 <= l1 < U32 && ToU32(l1 - f1) == l1 - f1
    ensures l1 - f1 > entries ==> ToU32(l1 - entries) == l1 - entries
    ensures f1 < l1 || (last < next && f1 == l1)
    ensures ToU32(f1 + 1) == f1 + 1
    ensures l1 - f1 > entries ==> ToU32(l1 - entries + 1) == l1 - entries + 1
  {
    if last < next {
      ModFacts(next, entries);
      if last < f1 {
        ToU32Fits(last + entries);
      }
    }
    assert f1 <= l1 < U32;
    ToU32Fits(l1 - f1);
    ToU32Fits(f1 + 1);
    if l1 - f1 > entries {
      ToU32Fits(l1 - entries);
      ToU32Fits(l1 - entries + 1);
    }
  }

  lemma ModFacts(x: nat, d: nat)
    requires d > 0
    ensures x % d <= x && x % d < d && (x % d) % d == x % d
  {
    DivModUnique(x % d, d, 0, x % d);
    DivBounds(x, d);
  }

  /** A reader behind the logger by at most one ring dumps the next
    * entry in order and moves on by one. */
  lemma CalcRangeInOrder(next: nat, last: nat, entries: nat)
    requires 0 < entries < 0x8000_0000 && IsU32(last)
    requires next < last <= next + entries
    ensures CalcRange(next, last, entries) == Range(true, next, last, next + 1)
  {
  }

  /** A reader overrun by the logger restarts at the oldest entry the
    * ring still holds. */
  lemma CalcRangeOverrun(next: nat, last: nat, entries: nat)
    requires 0 < entries < 0x8000_0000 && IsU32(last)
    requires next + entries < last
    ensures CalcRange(next, last, entries) == Range(true, last - entries, last, last - entries + 1)
  {
  }

  /** From a reader at most one ring behind, reading keeps the reader
    * at most one ring behind and brings it one entry closer, so the
    * entries come out in order until it catches up. */
  lemma {:induction false} CalcRangeDrains(next: nat, last: nat, entries: nat)
    requires 0 < entries < 0x8000_0000 && IsU32(last)
    requires next <= last <= next + entries
    ensures var r := CalcRange(next, last, entries);
            r.needDump <==> next < last
    ensures var r := CalcRange(next, last, entries);
            r.needDump ==> r.first == next && r.next <= r.last <= r.next + entries &&
                           r.last - r.next == last - next - 1
  {
    if next < last {
      CalcRangeInOrder(next, last, entries);
    }
  }

  /** The outcome of a read of one dumped entry: 0 when it does not fit
    * the user's count, -EFAULT when the copy faults, otherwise its
    * length, which also advances the file position. */
  function ReadOutcome(text: seq<char>, count: nat, ppos: int, copyFault: bool): (r: (int, int))
    ensures r.0 > 0 ==> r.0 == |text| <= count && r.1 == ppos + r.0
    ensures r.0 <= 0 ==> r.1 == ppos
    ensures r.0 == 0 <==> |text| > count || (!copyFault && |text| == 0)
    ensures r.0 == -EFAULT <==> |text| <= count && copyFault
  {
    if |text| > count then (0, ppos)
    else if copyFault then (-EFAULT, ppos)
    else (|text|, ppos + |text|)
  }

  /** One event log ring (struct ss_dbg_xlog), with the static reader
    * position of its calc_range function. */
  class XLog {
    /** SS_XLOG_ENTRY, SS_XLOG_BUF_ALIGN_TIME, SS_XLOG_PANIC_DBG_LENGTH. */
    const entries: nat
    const alignTime: nat
    const panicLength: nat
    var logs: seq<TLog>
    var first: nat
    var last: nat
    /** The static `next` of the calc_range function. */
    var next: nat

    predicate Valid()
      reads this
    {
      0 < entries < 0x8000_0000 && |logs| == entries && panicLength > 0 &&
      IsU32(first) && IsU32(last) && IsU32(next)
    }

    /** A log as the kernel image holds it before anything is logged. */
    constructor(entries: nat, alignTime: nat, panicLength: nat)
      requires 0 < entries < 0x8000_0000 && panicLength > 0
      ensures Valid()
      ensures this.entries == entries && this.alignTime == alignTime && this.panicLength == panicLength
      ensures logs == seq(entries, _ => TLog(0, [], []))
      ensures first == 0 && last == 0 && next == 0
    {
      this.entries := entries;
      this.alignTime := alignTime;
      this.panicLength := panicLength;
      logs := seq(entries, _ => TLog(0, [], []));
      first := 0;
      last := 0;
      next := 0;
    }

    /** __ss_dump_xlog_calc_range (and its vsync twin): the new range and
      * reader position are CalcRange's. */
    method DumpCalcRange() returns (needDump: bool)
      requires Valid()
      modifies this
      ensures Valid()
      ensures Range(needDump, first, last, next) == CalcRange(old(next), old(last), entries)
      ensures logs == old(logs)
    {
      var n0, l0 := next, last;
      var f, l := n0, l0;
      if l == f {
        first := f;
        return false;
      }
      if l < f {
        f := f % entries;
        if l < f {
          l := ToU32(l + entries);
        }
      }
      var f1 := f;
      if ToU32(l - f) > entries {
        f := ToU32(l - entries);
      }
      CalcRangeIs(n0, l0, entries, f1, l, f);
      first, last, next := f, l, ToU32(f + 1);
      needDump := true;
    }

    /** ss_xlog_dump_entry (and its vsync twin): the text of the entry in
      * slot first mod SS_XLOG_ENTRY, built field by field, and its
      * length. */
    method DumpEntry() returns (buf: seq<char>, off: nat)
      requires Valid()
      ensures buf == EntryText(logs[first % entries], alignTime)
      ensures off == |buf|
    {
      buf := FormatEntry(logs[first % entries], alignTime);
      off := |buf|;
    }

    /** ss_store_xlog_panic_dbg: walks back from the entry before `last`
      * (read as an int) down to entry 0, appending each entry's text,
      * and stops as soon as the text fills the panic buffer; the buffer
      * keeps the first SS_XLOG_PANIC_DBG_LENGTH - 1 characters of the
      * newest-first listing. */
    method StorePanicDbg() returns (errBuf: seq<char>)
      requires Valid()
      ensures var start := ToS32(last);
              errBuf == Clip(Backwards(logs, if start != 0 then start - 1 else 0), panicLength - 1)
      ensures |errBuf| < panicLength
    {
      var l := ToS32(last);
      if l != 0 {
        l := l - 1;
      }
      errBuf := PanicListing(logs, l, panicLength);
    }
  }

  /** The formatting steps of ss_xlog_dump_entry: the time field, the
    * padding up to the alignment column, the name and arrow, one "%x "
    * per data word and the newline. */
  method FormatEntry(log: TLog, align: nat) returns (buf: seq<char>)
    ensures buf == EntryText(log, align)
  {
    buf := TimeField(log.time);
    if |buf| < align {
      buf := buf + Spaces(align - |buf|);
    }
    assert buf == AlignedTime(log.time, align);
    buf := buf + log.name + " => ";
    ghost var head := buf;
    var i := 0;
    while i < |log.data|
      invariant 0 <= i <= |log.data|
      invariant buf == head + DataText(log.data[..i])
    {
      DataTextStep(head, log.data, i, buf);
      buf := buf + HexText(log.data[i]) + " ";
      i := i + 1;
    }
    assert log.data[..i] == log.data;
    buf := buf + "\n";
  }

  /** One round of the data loop of FormatEntry. */
  lemma DataTextStep(head: seq<char>, data: seq<nat>, i: nat, buf: seq<char>)
    requires i < |data| && buf == head + DataText(data[..i])
    ensures buf + HexText(data[i]) + " " == head + DataText(data[..i + 1])
  {
    assert data[..i + 1][..i] == data[..i];
    assert DataText(data[..i + 1]) == DataText(data[..i]) + HexText(data[i]) + " ";
  }

  /** The walk of ss_store_xlog_panic_dbg from entry `l` back to entry 0,
    * stopping once the text reaches `limit`; the result keeps the first
    * limit - 1 characters. */
  method PanicListing(logs: seq<TLog>, l0: int, limit: nat) returns (errBuf: seq<char>)
    requires |logs| > 0 && limit > 0
    ensures errBuf == Clip(Backwards(logs, l0), limit - 1)
    ensures |errBuf| < limit
  {
    if l0 < 0 {
      return [];
    }
    var text, stop := WalkBack(logs, l0, limit);
    if stop {
      ClipOfPrefix(text, Backwards(logs, l0), limit - 1);
    }
    errBuf := Clip(text, limit - 1);
  }

  /** The loop of the panic walk: either the whole listing from entry l0
    * down, or a prefix of it that reaches the limit. */
  method WalkBack(logs: seq<TLog>, l0: nat, limit: nat) returns (text: seq<char>, stop: bool)
    requires |logs| > 0
    ensures !stop ==> text == Backwards(logs, l0)
    ensures stop ==> |text| >= limit && text <= Backwards(logs, l0)
  {
    var l: int := l0;
    text := [];
    assert text + Backwards(logs, l) == Backwards(logs, l0);
    while l >= 0
      invariant l >= -1
      invariant text + Backwards(logs, l) == Backwards(logs, l0)
    {
      ghost var before := text;
      text, stop := WalkStep(logs, l, text, limit);
      if stop {
        PrefixChain(text, before + Backwards(logs, l), Backwards(logs, l0));
        return;
      }
      l := l - 1;
    }
    assert text + [] == text;
    stop := false;
  }

  /** One iteration of the panic walk: entry l's text is appended, or a
    * prefix of it that reaches the limit. */
  method WalkStep(logs: seq<TLog>, l: nat, text: seq<char>, limit: nat) returns (r: seq<char>, stop: bool)
    requires |logs| > 0
    ensures !stop ==> r + Backwards(logs, l - 1) == text + Backwards(logs, l)
    ensures stop ==> |r| >= limit && r <= text + Backwards(logs, l)
  {
    var log := Slot(logs, l);
    BackwardsStep(logs, l, text, text + Backwards(logs, l));
    r, stop := AppendEntry(text, log, limit);
    if stop {
      StopPrefix(r, text + PanicEntry(log), Backwards(logs, l - 1), text + Backwards(logs, l));
    }
  }

  /** One pass of the panic walk: the entry's header, then its words,
    * stopping as soon as the text reaches the limit. */
  method AppendEntry(text: seq<char>, log: TLog, limit: nat) returns (r: seq<char>, stop: bool)
    ensures !stop ==> r == text + PanicEntry(log)
    ensures stop ==> |r| >= limit && r <= text + PanicEntry(log)
  {
    r := text + PanicHeader(log);
    if |r| >= limit {
      PrefixOfConcat(r, DataText(log.data), r + DataText(log.data));
      Assoc(text, PanicHeader(log), DataText(log.data));
      return r, true;
    }
    r, stop := AppendData(r, log.data, limit);
    Assoc(text, PanicHeader(log), DataText(log.data));
  }

  /** One step back through the panic listing. */
  lemma BackwardsStep(logs: seq<TLog>, l: nat, text: seq<char>, whole: seq<char>)
    requires |logs| > 0 && text + Backwards(logs, l) == whole
    ensures whole == (text + PanicEntry(Slot(logs, l))) + Backwards(logs, l - 1)
  {
    var e := PanicEntry(Slot(logs, l));
    var rest := Backwards(logs, l - 1);
    Assoc(text, e, rest);
  }

  lemma Assoc(a: seq<char>, b: seq<char>, c: seq<char>)
    ensures a + (b + c) == (a + b) + c
  {
  }

  lemma PrefixOfConcat(a: seq<char>, b: seq<char>, c: seq<char>)
    requires a + b == c
    ensures a <= c
  {
    assert c[..|a|] == a;
  }

  lemma SuffixOfConcat(a: seq<char>, b: seq<char>, c: seq<char>, t: seq<char>)
    requires a + b == c && |t| <= |b| && b[|b| - |t|..] == t
    ensures |t| <= |c| && c[|c| - |t|..] == t
  {
    assert c[|c| - |t|..] == b[|b| - |t|..];
  }

  lemma StopPrefix(text: seq<char>, done: seq<char>, rest: seq<char>, whole: seq<char>)
    requires done + rest == whole && text <= done
    ensures text <= whole
  {
    PrefixOfConcat(done, rest, whole);
    PrefixChain(text, done, whole);
  }

  lemma PrefixChain(a: seq<char>, b: seq<char>, c: seq<char>)
    requires a <= b && b <= c
    ensures a <= c
  {
    assert b[..|a|] == a;
    assert c[..|b|] == b;
    assert c[..|b|][..|a|] == c[..|a|];
  }

  /** The data loop of the panic listing: appends "%x " per word and
    * stops as soon as the text reaches the limit. */
  method AppendData(text: seq<char>, data: seq<nat>, limit: nat) returns (r: seq<char>, stop: bool)
    ensures !stop ==> r == text + DataText(data)
    ensures stop ==> |r| >= limit && text <= r && r <= text + DataText(data)
  {
    r := text;
    stop := false;
    var i := 0;
    while i < |data|
      invariant 0 <= i <= |data|
      invariant r == text + DataText(data[..i])
    {
      DataTextStep(text, data, i, r);
      r := r + HexText(data[i]) + " ";
      i := i + 1;
      if |r| >= limit {
        StopInData(text, data, i, r);
        return r, true;
      }
    }
    assert data[..i] == data;
  }

  /** Stopping after word i - 1: the text so far is a prefix of the
    * whole. */
  lemma StopInData(text: seq<char>, data: seq<nat>, i: nat, r: seq<char>)
    requires i <= |data| && r == text + DataText(data[..i])
    ensures text <= r && r <= text + DataText(data)
  {
    DataTextPrefix(data, i);
    PrefixOfConcat(text, DataText(data[..i]), r);
    PrefixExtend(text, DataText(data[..i]), DataText(data));
  }

  lemma PrefixExtend(text: seq<char>, p: seq<char>, q: seq<char>)
    requires p <= q
    ensures text + p <= text + q
  {
    assert (text + q)[..|text + p|] == text + q[..|p|];
  }

  /** ss_xlog_dump_read: the main log is read first; only when it has
    * nothing to dump is the vsync log read.  A dumped entry longer than
    * the user's count is dropped with 0 returned. */
  method DumpRead(main: XLog, vsync: XLog, count: nat, ppos: int, copyFault: bool) returns (r: int, pos: int)
    requires main != vsync && main.Valid() && vsync.Valid()
    modifies main, vsync
    ensures main.Valid() && vsync.Valid()
    ensures main.logs == old(main.logs) && vsync.logs == old(vsync.logs)
    ensures var m := CalcRange(old(main.next), old(main.last), main.entries);
            main.first == m.first && main.last == m.last && main.next == m.next
    ensures var m := CalcRange(old(main.next), old(main.last), main.entries);
            m.needDump ==> vsync.first == old(vsync.first) && vsync.last == old(vsync.last) && vsync.next == old(vsync.next) &&
                           (r, pos) == ReadOutcome(EntryText(main.logs[m.first % main.entries], main.alignTime), count, ppos, copyFault)
    ensures var m := CalcRange(old(main.next), old(main.last), main.entries);
            var v := CalcRange(old(vsync.next), old(vsync.last), vsync.entries);
            !m.needDump ==> vsync.first == v.first && vsync.last == v.last && vsync.next == v.next &&
                            (r, pos) == if v.needDump
                                        then ReadOutcome(EntryText(vsync.logs[v.first % vsync.entries], vsync.alignTime), count, ppos, copyFault)
                                        else (0, ppos)
  {
    var need := main.DumpCalcRange();
    if need {
      var buf, len := main.DumpEntry();
      r, pos := ReadOutcome(buf, count, ppos, copyFault).0, ReadOutcome(buf, count, ppos, copyFault).1;
      return;
    }
    need := vsync.DumpCalcRange();
    if need {
      var buf, len := vsync.DumpEntry();
      r, pos := ReadOutcome(buf, count, ppos, copyFault).0, ReadOutcome(buf, count, ppos, copyFault).1;
      return;
    }
    r, pos := 0, ppos;
  }

  /** ss_xlog_dump_show: the main log's next entry, if any, for a
    * seq_file read. */
  method DumpShow(main: XLog) returns (len: nat, shown: seq<char>)
    requires main.Valid()
    modifies main
    ensures main.Valid() && main.logs == old(main.logs)
    ensures var m := CalcRange(old(main.next), old(main.last), main.entries);
            main.first == m.first && main.last == m.last && main.next == m.next &&
            shown == (if m.needDump then EntryText(main.logs[m.first % main.entries], main.alignTime) else []) &&
            len == |shown|
  {
    var need := main.DumpCalcRange();
    shown := [];
    len := 0;
    if need {
      shown, len := main.DumpEntry();
    }
  }

  // ---------------------------------------------------------------
  // SMMU mapping debug lists
  // ---------------------------------------------------------------

  /** SMMU_MAX_DEBUG: the two logged types, SMMU_RT_DISPLAY_DEBUG and
    * SMMU_NRT_ROTATOR_DEBUG. */
  const SmmuMaxDebug: nat := 2

  /** One mapping record (struct ss_smmu_logging): when, and which table. */
  datatype SmmuLogging = SmmuLogging(time: int, table: nat)

  /** The position of the first record of the table. */
  function FirstTable(list: seq<SmmuLogging>, table: nat): (r: Option<nat>)
    ensures r.Some? ==> r.value < |list| && list[r.value].table == table
    ensures r.Some? ==> forall j :: 0 <= j < r.value ==> list[j].table != table
    ensures r.None? ==> forall j :: 0 <= j < |list| ==> list[j].table != table
  {
    if |list| == 0 then None
    else if list[0].table == table then Some(0)
    else match FirstTable(list[1..], table)
      case None => None
      case Some(i) => Some(i + 1)
  }

  /** The list without the first record of the table. */
  function DropFirstTable(list: seq<SmmuLogging>, table: nat): (r: seq<SmmuLogging>)
    ensures FirstTable(list, table).None? ==> r == list
    ensures FirstTable(list, table).Some? ==>
              (|r| == |list| - 1 && r == list[..FirstTable(list, table).value] + list[FirstTable(list, table).value + 1..])
  {
    match FirstTable(list, table)
    case None => list
    case Some(i) => list[..i] + list[i + 1..]
  }

  /** Unmapping a table just mapped removes exactly that record. */
  lemma MapThenUnmap(list: seq<SmmuLogging>, time: int, table: nat)
    ensures DropFirstTable([SmmuLogging(time, table)] + list, table) == list
  {
    var l := [SmmuLogging(time, table)] + list;
    assert FirstTable(l, table) == Some(0);
    assert l[1..] == list;
  }

  /** The walk of ss_smmu_debug_unmap over one list. */
  method FindTable(list: seq<SmmuLogging>, table: nat) returns (pos: Option<nat>)
    ensures pos == FirstTable(list, table)
  {
    var i := 0;
    while i < |list|
      invariant 0 <= i <= |list|
      invariant forall j :: 0 <= j < i ==> list[j].table != table
    {
      if list[i].table == table {
        FirstTableAt(list, table, i);
        return Some(i);
      }
      i := i + 1;
    }
    pos := None;
  }

  lemma FirstTableAt(list: seq<SmmuLogging>, table: nat, i: nat)
    requires i < |list| && list[i].table == table
    requires forall j :: 0 <= j < i ==> list[j].table != table
    ensures FirstTable(list, table) == Some(i)
  {
    var f := FirstTable(list, table);
    assert f.Some?;
  }

  /** Whether a map of this type records anything. */
  predicate Records(initDone: seq<bool>, cacheCreated: bool, typ: nat, allocOk: bool) {
    typ < SmmuMaxDebug && typ < |initDone| && initDone[typ] && cacheCreated && allocOk
  }

  /** The SMMU debug state of the common display (vdd->ss_debug_smmu and
    * its record cache). */
  class SmmuDebug {
    var initDone: seq<bool>
    var cacheCreated: bool
    var lists: seq<seq<SmmuLogging>>

    predicate Valid()
      reads this
    {
      |initDone| == SmmuMaxDebug && |lists| == SmmuMaxDebug
    }

    constructor()
      ensures Valid()
      ensures initDone == [false, false] && !cacheCreated && lists == [[], []]
    {
      initDone := [false, false];
      cacheCreated := false;
      lists := [[], []];
    }

    /** ss_smmu_debug_init: jumps straight to its failure path, which
      * clears every init_done flag and returns -EPERM, so no map is
      * recorded afterwards. */
    method Init() returns (r: int)
      requires Valid()
      modifies this
      ensures Valid()
      ensures r == -EPERM
      ensures forall t :: 0 <= t < SmmuMaxDebug ==> !initDone[t]
      ensures forall t, a :: !Records(initDone, cacheCreated, t, a)
      ensures cacheCreated == old(cacheCreated) && lists == old(lists)
    {
      var done := initDone;
      var cnt := 0;
      while cnt < SmmuMaxDebug
        invariant 0 <= cnt <= SmmuMaxDebug && |done| == SmmuMaxDebug
        invariant forall t :: 0 <= t < cnt ==> !done[t]
      {
        done := done[cnt := false];
        cnt := cnt + 1;
      }
      initDone := done;
      r := -EPERM;
    }

    /** ss_smmu_debug_map: for an initialised type with its cache, a
      * record allocated at `now` is added at the head of the list. */
    method Map(typ: nat, table: nat, now: int, allocOk: bool)
      requires Valid()
      modifies this
      ensures Valid()
      ensures Records(old(initDone), old(cacheCreated), typ, allocOk) ==>
                lists == old(lists)[typ := [SmmuLogging(now, table)] + old(lists[typ])]
      ensures !Records(old(initDone), old(cacheCreated), typ, allocOk) ==> lists == old(lists)
      ensures initDone == old(initDone) && cacheCreated == old(cacheCreated)
    {
      if typ >= SmmuMaxDebug || !initDone[typ] {
        return;
      }
      if !cacheCreated {
        return;
      }
      if allocOk {
        lists := lists[typ := [SmmuLogging(now, table)] + lists[typ]];
      }
    }

    /** ss_smmu_debug_unmap: for an initialised type, the first record of
      * the table is removed from the list. */
    method Unmap(typ: nat, table: nat)
      requires Valid()
      modifies this
      ensures Valid()
      ensures typ < SmmuMaxDebug && old(initDone[typ]) ==>
                lists == old(lists)[typ := DropFirstTable(old(lists[typ]), table)]
      ensures !(typ < SmmuMaxDebug && old(initDone[typ])) ==> lists == old(lists)
      ensures initDone == old(initDone) && cacheCreated == old(cacheCreated)
    {
      if typ >= SmmuMaxDebug || !initDone[typ] {
        return;
      }
      var list := lists[typ];
      var pos := FindTable(list, table);
      if pos.Some? {
        lists := lists[typ := list[..pos.value] + list[pos.value + 1..]];
      }
    }
  }
}

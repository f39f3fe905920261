/**
 * The per-filesystem sysfs attributes of fs/f2fs/sysfs.c: the validators
 * and parsers of __sbi_store, the ckpt_thread_ioprio text format, the
 * features listing, the sec_fua_mode listing and the reset of the
 * statistics groups that __sec_bigdata_init_value performs.
 *
 * The superblock information is a class whose fields are the members
 * those paths read or write; an attribute that stores a plain unsigned
 * int is an entry of `plain`, keyed by the attribute's name. The number
 * kstrtoul or kstrtol reads from the text, and the results of the calls
 * into the rest of f2fs (updating the extension list, committing the
 * superblock, setting the checkpoint thread's I/O priority), are inputs;
 * the calls made to update the extension list are kept as a log.
 */
module F2fsSysfs {
  import opened Wrappers

  // ---------------------------------------------------------------
  // Constants of the f2fs and block-layer headers
  // ---------------------------------------------------------------

  const F2fsExtensionLen: nat := 8
  const MaxPlistNum: nat := 512
  const MinFragmentSize: nat := 1
  const MaxFragmentSize: nat := 512
  const IoprioClassShift: nat := 13
  const IoprioClassRt: nat := 1
  const IoprioClassBe: nat := 2
  const IoprioBeNr: nat := 8

  /** gc_mode values. */
  const GcNormal: nat := 0
  const GcIdleCb: nat := 1
  const GcIdleGreedy: nat := 2
  const GcIdleAt: nat := 3
  const GcUrgentHigh: nat := 4
  const GcUrgentLow: nat := 5
  const MaxGcMode: nat := 6
  /** GC_AT, a victim-selection policy (GC_CB, GC_GREEDY, GC_AT), not a
    * gc_mode. */
  const GcAtPolicy: nat := 2

  // ---------------------------------------------------------------
  // C strings
  // ---------------------------------------------------------------

  /** The text up to its first NUL, which is what string functions see. */
  function CString(s: seq<char>): seq<char> {
    if |s| == 0 || s[0] == '\0' then [] else [s[0]] + CString(s[1..])
  }

  /** CString is the longest NUL-free prefix of the text. */
  lemma {:induction false} CStringPrefix(s: seq<char>)
    ensures '\0' !in CString(s) && CString(s) <= s
    ensures |CString(s)| < |s| ==> s[|CString(s)|] == '\0'
  {
    if |s| > 0 && s[0] != '\0' {
      CStringPrefix(s[1..]);
    }
  }

  /** isspace of the kernel's ctype table: the five ASCII controls, space
    * and the Latin-1 no-break space. */
  predicate IsSpace(c: char) {
    c == ' ' || c == '\t' || c == '\n' || c == '\U{000B}' || c == '\U{000C}' || c == '\r' || c == '\U{00A0}'
  }

  /** skip_spaces. */
  function SkipSpaces(s: seq<char>): seq<char> {
    if |s| > 0 && IsSpace(s[0]) then SkipSpaces(s[1..]) else s
  }

  /** skip_spaces drops the leading white space and only that. */
  lemma {:induction false} SkipSpacesShape(s: seq<char>)
    ensures |SkipSpaces(s)| <= |s| && SkipSpaces(s) == s[|s| - |SkipSpaces(s)|..]
    ensures |SkipSpaces(s)| > 0 ==> !IsSpace(SkipSpaces(s)[0])
    ensures forall i :: 0 <= i < |s| - |SkipSpaces(s)| ==> IsSpace(s[i])
  {
    if |s| > 0 && IsSpace(s[0]) {
      SkipSpacesShape(s[1..]);
    }
  }

  /** The text without its trailing white space. */
  function TrimEnd(s: seq<char>): seq<char> {
    if |s| > 0 && IsSpace(s[|s| - 1]) then TrimEnd(s[..|s| - 1]) else s
  }

  /** The trailing white space, and only that, goes. */
  lemma {:induction false} TrimEndShape(s: seq<char>)
    ensures |TrimEnd(s)| <= |s| && TrimEnd(s) == s[..|TrimEnd(s)|]
    ensures |TrimEnd(s)| > 0 ==> !IsSpace(TrimEnd(s)[|TrimEnd(s)| - 1])
    ensures forall i :: |TrimEnd(s)| <= i < |s| ==> IsSpace(s[i])
  {
    if |s| > 0 && IsSpace(s[|s| - 1]) {
      TrimEndShape(s[..|s| - 1]);
    }
  }

  /** strim: the text without leading and trailing white space. */
  function Strim(s: seq<char>): seq<char> {
    SkipSpaces(TrimEnd(s))
  }

  /** strim keeps a contiguous part of the text that neither starts nor
    * ends with white space and drops only white space around it. */
  lemma StrimShape(s: seq<char>)
    ensures exists i, j :: 0 <= i <= j <= |s| && Strim(s) == s[i..j] &&
              (forall k :: 0 <= k < i ==> IsSpace(s[k])) &&
              (forall k :: j <= k < |s| ==> IsSpace(s[k]))
    ensures |Strim(s)| > 0 ==> !IsSpace(Strim(s)[0]) && !IsSpace(Strim(s)[|Strim(s)| - 1])
  {
    var t := TrimEnd(s);
    TrimEndShape(s);
    var r := SkipSpaces(t);
    SkipSpacesShape(t);
    var i := |t| - |r|;
    assert r == s[i..|t|];
    if |r| > 0 {
      assert r[|r| - 1] == t[|t| - 1];
    }
    assert (forall k :: 0 <= k < i ==> IsSpace(s[k])) && (forall k :: |t| <= k < |s| ==> IsSpace(s[k]));
  }

  /** A trimmed text is its own strim. */
  lemma StrimIdempotent(s: seq<char>)
    ensures Strim(Strim(s)) == Strim(s)
  {
    StrimShape(s);
    var r := Strim(s);
    assert TrimEnd(r) == r;
  }

  /** strim of the text a store is given. */
  method StrimText(buf: seq<char>) returns (r: seq<char>)
    ensures r == Strim(CString(buf))
  {
    r := Strim(CString(buf));
  }

  // ---------------------------------------------------------------
  // extension_list
  // ---------------------------------------------------------------

  /** What an extension_list write asks for. */
  datatype ExtensionRequest = ExtensionRequest(hot: bool, add: bool, name: seq<char>)

  /** The extension_list text, already trimmed: "[h]" or "[c]", then "!"
    * to remove rather than add, then a name of 1 to F2FS_EXTENSION_LEN-1
    * characters; anything else is None (-EINVAL). */
  function ParseExtension(s: seq<char>): (r: Option<ExtensionRequest>)
    ensures r.Some? ==> 0 < |r.value.name| < F2fsExtensionLen
    ensures r.Some? ==> |s| >= 3 && s[..3] == (if r.value.hot then "[h]" else "[c]")
  {
    if |s| < 3 || (s[..3] != "[h]" && s[..3] != "[c]") then None
    else
      var hot := s[..3] == "[h]";
      var rest := s[3..];
      var add := !(|rest| > 0 && rest[0] == '!');
      var name := if add then rest else rest[1..];
      if |name| == 0 || |name| >= F2fsExtensionLen then None
      else Some(ExtensionRequest(hot, add, name))
  }

  /** The text a request is written as. */
  function ExtensionText(req: ExtensionRequest): seq<char> {
    (if req.hot then "[h]" else "[c]") + (if req.add then "" else "!") + req.name
  }

  /** Every well-formed request parses back from its text; a name that
    * would read as the removal mark cannot be added. */
  lemma ExtensionRoundTrip(req: ExtensionRequest)
    requires 0 < |req.name| < F2fsExtensionLen
    requires req.add ==> req.name[0] != '!'
    ensures ParseExtension(ExtensionText(req)) == Some(req)
  {
    var s := ExtensionText(req);
    assert s[..3] == (if req.hot then "[h]" else "[c]");
    assert s[3..] == (if req.add then "" else "!") + req.name;
    if !req.add {
      assert s[3..][1..] == req.name;
    }
  }

  /** A text without one of the two prefixes, or with an empty or
    * overlong name, is rejected. */
  lemma ExtensionRejects(s: seq<char>)
    ensures (|s| < 3 || (s[..3] != "[h]" && s[..3] != "[c]")) ==> ParseExtension(s).None?
    ensures |s| >= 3 + F2fsExtensionLen + 1 ==> ParseExtension(s).None?
    ensures s == "[h]" || s == "[c]" || s == "[h]!" || s == "[c]!" ==> ParseExtension(s).None?
  {
  }

  // ---------------------------------------------------------------
  // ckpt_thread_ioprio
  // ---------------------------------------------------------------

  /** IOPRIO_PRIO_VALUE(cls, data). */
  function IoprioValue(cls: nat, data: nat): nat {
    cls * 8192 + data
  }

  /** IOPRIO_PRIO_CLASS and IOPRIO_PRIO_DATA. */
  function IoprioClass(v: nat): nat { v / 8192 }
  function IoprioData(v: nat): nat { v % 8192 }

  /** Class and data come back out of the value they were packed into. */
  lemma IoprioRoundTrip(cls: nat, data: nat)
    requires data < 8192
    ensures IoprioClass(IoprioValue(cls, data)) == cls
    ensures IoprioData(IoprioValue(cls, data)) == data
  {
  }

  /** The class a ckpt_thread_ioprio text selects by its prefix. */
  function IoprioPrefixClass(s: seq<char>): (r: Option<nat>)
    ensures r.Some? ==> |s| >= 3 && (r.value == IoprioClassRt || r.value == IoprioClassBe)
  {
    if |s| >= 3 && s[..3] == "rt," then Some(IoprioClassRt)
    else if |s| >= 3 && s[..3] == "be," then Some(IoprioClassBe)
    else None
  }

  /** The show side: "rt," or "be," for those classes, then the data in
    * decimal and a newline; any other class is -EINVAL (None). */
  function IoprioShow(v: nat): (r: Option<seq<char>>)
    ensures r.Some? ==> IoprioPrefixClass(r.value) == Some(IoprioClass(v))
  {
    var cls := IoprioClass(v);
    if cls != IoprioClassRt && cls != IoprioClassBe then None
    else
      var prefix := if cls == IoprioClassRt then "rt," else "be,";
      var s := prefix + Decimal(IoprioData(v)) + "\n";
      assert s[..3] == prefix;
      Some(s)
  }

  /** What a store accepts, show prints back: the same prefix and the
    * same priority level. */
  lemma IoprioShowRoundTrip(cls: nat, data: nat)
    requires cls == IoprioClassRt || cls == IoprioClassBe
    requires data < IoprioBeNr
    ensures IoprioShow(IoprioValue(cls, data)).Some?
    ensures var s := IoprioShow(IoprioValue(cls, data)).value;
            IoprioPrefixClass(s) == Some(cls) &&
            s == s[..3] + Decimal(data) + "\n" &&
            DigitsValue(Decimal(data)) == data
  {
    IoprioRoundTrip(cls, data);
    DecimalValue(data);
  }

  // ---------------------------------------------------------------
  // Numeric validators
  // ---------------------------------------------------------------

  /** gc_urgent: 0, 1 and 2 select GC_NORMAL, GC_URGENT_HIGH and
    * GC_URGENT_LOW; anything else is rejected. */
  function GcUrgentMode(t: nat): (r: Option<nat>)
    ensures r.Some? <==> t <= 2
    ensures r.Some? ==> r.value < MaxGcMode
  {
    if t == 0 then Some(GcNormal)
    else if t == 1 then Some(GcUrgentHigh)
    else if t == 2 then Some(GcUrgentLow)
    else None
  }

  /** gc_idle as written: 1 and 2 select the idle CB and greedy modes, 3
    * (when ATGC is enabled) stores GC_AT, anything else GC_NORMAL. */
  function GcIdleModeAsWritten(t: nat, atgcEnabled: bool): (r: Option<nat>)
    ensures r.None? <==> t == GcIdleAt && !atgcEnabled
  {
    if t == GcIdleCb then Some(GcIdleCb)
    else if t == GcIdleGreedy then Some(GcIdleGreedy)
    else if t == GcIdleAt then (if !atgcEnabled then None else Some(GcAtPolicy))
    else Some(GcNormal)
  }

  /** GC_AT has the value of GC_IDLE_GREEDY, so asking for the
    * age-threshold idle mode selects greedy idle GC. */
  lemma GcIdleAtSelectsGreedy()
    ensures GcIdleModeAsWritten(GcIdleAt, true) == Some(GcIdleGreedy)
  {
  }

  /** gc_idle storing GC_IDLE_AT for 3. */
  function GcIdleMode(t: nat, atgcEnabled: bool): (r: Option<nat>)
    ensures r.None? <==> t == GcIdleAt && !atgcEnabled
    ensures r.Some? ==> r.value < MaxGcMode
    ensures r.Some? && GcIdleCb <= t <= GcIdleAt ==> r.value == t
    ensures r.Some? && !(GcIdleCb <= t <= GcIdleAt) ==> r.value == GcNormal
  {
    if t == GcIdleCb then Some(GcIdleCb)
    else if t == GcIdleGreedy then Some(GcIdleGreedy)
    else if t == GcIdleAt then (if !atgcEnabled then None else Some(GcIdleAt))
    else Some(GcNormal)
  }

  /** The two readings of gc_idle differ only where the age-threshold
    * mode is asked for and available. */
  lemma GcIdleAsWrittenDiffers(t: nat, atgcEnabled: bool)
    ensures GcIdleModeAsWritten(t, atgcEnabled) != GcIdleMode(t, atgcEnabled) <==> t == GcIdleAt && atgcEnabled
  {
  }

  /** The limit on reserved_blocks, user_block_count - root_reserved -
    * blocks_per_seg * additional_reserved_segments, in block_t (u32). */
  function ReservedLimit(userBlocks: nat, rootReserved: nat, blocksPerSeg: nat, additionalSegs: nat): (r: nat)
    ensures r < U32
  {
    MulNonneg(blocksPerSeg, additionalSegs);
    ToU32(userBlocks - rootReserved - blocksPerSeg * additionalSegs)
  }

  /** When the reservations fit in the user blocks, the limit is exactly
    * what is left of them. */
  lemma ReservedLimitExact(userBlocks: nat, rootReserved: nat, blocksPerSeg: nat, additionalSegs: nat)
    requires userBlocks < U32 && rootReserved + blocksPerSeg * additionalSegs <= userBlocks
    ensures ReservedLimit(userBlocks, rootReserved, blocksPerSeg, additionalSegs)
            == userBlocks - rootReserved - blocksPerSeg * additionalSegs
  {
    MulNonneg(blocksPerSeg, additionalSegs);
  }

  // ---------------------------------------------------------------
  // features
  // ---------------------------------------------------------------

  /** The optional features in the order features_show lists them. */
  const FeatureNames: seq<seq<char>> := ["encryption", "blkzoned", "extra_attr", "projquota",
    "inode_checksum", "flexible_inline_xattr", "quota_ino", "inode_crtime", "lost_found",
    "verity", "sb_checksum", "casefold", "readonly", "compression"]

  /** The names of the features present, in order. */
  function Selected(names: seq<seq<char>>, present: seq<bool>): (r: seq<seq<char>>)
    requires |present| == |names|
    ensures |r| <= |names|
    ensures forall x :: x in r ==> x in names
  {
    if |names| == 0 then []
    else Selected(names[..|names| - 1], present[..|names| - 1]) +
         (if present[|names| - 1] then [names[|names| - 1]] else [])
  }

  /** The items joined by ", ". */
  function Join(items: seq<seq<char>>): seq<char> {
    if |items| == 0 then [] else if |items| == 1 then items[0]
    else Join(items[..|items| - 1]) + ", " + items[|items| - 1]
  }

  /** Joining one more item adds a separator only after a non-empty
    * text. */
  lemma JoinStep(items: seq<seq<char>>, x: seq<char>)
    requires NonEmptyItems(items)
    ensures Join(items + [x]) == if |items| == 0 then x else Join(items) + ", " + x
    ensures |items| > 0 <==> |Join(items)| > 0
  {
    assert (items + [x])[..|items|] == items;
    if |items| == 1 {
      assert |items[0]| > 0;
    }
  }

  lemma FeatureNamesNonEmpty()
    ensures NonEmptyItems(FeatureNames)
  {
  }

  /** The listing ends with "pin_file" and a newline whatever the features. */
  lemma FeaturesListingEnds(present: seq<bool>)
    requires |present| == |FeatureNames|
    ensures var s := Join(Selected(FeatureNames, present) + ["pin_file"]) + "\n";
            |s| >= 9 && s[|s| - 9..] == "pin_file\n"
  {
    var sel := Selected(FeatureNames, present);
    FeatureNamesNonEmpty();
    assert NonEmptyItems(sel) by {
      forall i | 0 <= i < |sel| ensures |sel[i]| > 0 {
        assert sel[i] in FeatureNames;
      }
    }
    JoinStep(sel, "pin_file");
  }

  // ---------------------------------------------------------------
  // sec_fua_mode
  // ---------------------------------------------------------------

  const FuaModeNames: seq<seq<char>> := ["NONE", "ROOT", "ALL"]

  /** The text shown for entry i: bracketed when it is the current mode. */
  function FuaEntry(mode: nat, i: nat): seq<char>
    requires i < |FuaModeNames|
  {
    if i == mode then "[" + FuaModeNames[i] + "] " else FuaModeNames[i] + " "
  }

  /** Entries 0 .. n-1 side by side. */
  function FuaListing(mode: nat, n: nat): seq<char>
    requires n <= |FuaModeNames|
  {
    if n == 0 then [] else FuaListing(mode, n - 1) + FuaEntry(mode, n - 1)
  }

  /** Each entry of the listing occupies at least four characters. */
  lemma {:induction false} FuaListingLength(mode: nat, n: nat)
    requires n <= |FuaModeNames|
    ensures |FuaListing(mode, n)| >= 4 * n
  {
    if n > 0 {
      FuaListingLength(mode, n - 1);
    }
  }

  /** The listing for the default mode, and what the show as written
    * leaves in the buffer for it: the last entry alone, four characters,
    * against a returned length of sixteen. */
  lemma FuaListingDefault()
    ensures FuaListing(0, |FuaModeNames|) == "[NONE] ROOT ALL "
    ensures FuaEntry(0, |FuaModeNames| - 1) == "ALL "
    ensures |FuaListing(0, |FuaModeNames|)| == 16
  {
    assert FuaListing(0, 1) == "[NONE] ";
    assert FuaListing(0, 2) == "[NONE] ROOT ";
  }

  /** Whatever the mode, the buffer the show as written leaves is shorter
    * than the length it returns, so the length covers bytes it never
    * wrote. */
  lemma FuaShowAsWrittenOvercounts(mode: nat)
    ensures |FuaEntry(mode, |FuaModeNames| - 1)| < |FuaListing(mode, |FuaModeNames|)|
  {
    FuaListingLength(mode, |FuaModeNames|);
  }

  /** The last of the first n mode names equal to the text. */
  function FuaMatch(mode: seq<char>, n: nat): (r: Option<nat>)
    requires n <= |FuaModeNames|
    ensures r.Some? ==> r.value < n && FuaModeNames[r.value] == mode
  {
    if n == 0 then None
    else if FuaModeNames[n - 1] == mode then Some(n - 1)
    else FuaMatch(mode, n - 1)
  }

  /** A text is matched exactly when it is one of the mode names, and
    * then by that name's index. */
  lemma FuaMatchNames(mode: seq<char>)
    ensures FuaMatch(mode, |FuaModeNames|).Some? <==> mode in FuaModeNames
    ensures forall i :: 0 <= i < |FuaModeNames| && FuaModeNames[i] == mode ==> FuaMatch(mode, |FuaModeNames|) == Some(i)
  {
    assert FuaModeNames[0] == "NONE" && FuaModeNames[1] == "ROOT" && FuaModeNames[2] == "ALL";
  }

  // ---------------------------------------------------------------
  // Statistics groups
  // ---------------------------------------------------------------

  /** The settings the numeric stores write. */
  datatype Tunables = Tunables(reservedBlocks: nat, currentReservedBlocks: nat, discardGranularity: nat,
    migrationGranularity: nat, gcMode: nat, gcWake: bool, gcUrgentHighLimited: bool,
    gcUrgentHighRemaining: nat, candidateRatio: nat, ageWeight: nat, gcSegmentMode: nat,
    gcReclaimedSegs: seq<nat>, maxFragmentChunk: nat, maxFragmentHole: nat, plain: map<seq<char>, nat>)

  datatype SecStat = SecGcStat | SecIoStat | SecFsckStat | SecDefragStat

  /** The number kstrtoul or kstrtol read, or the error it returned. */
  datatype Parsed = Value(v: int) | Error(code: int)

  /** The results of the calls into the rest of f2fs and the block
    * layer a store can make. */
  datatype StoreEnv = StoreEnv(updateExtensionErr: int, commitSuperErr: int, setIoprioErr: int,
                               bdPartWritten: Option<nat>)

  /** sec_stat's counters, split into the garbage-collection group and
    * the I/O group's checkpoint counts, checkpoint-reason counts, other
    * counters and written-bytes mark, with the fsck and defrag groups. */
  datatype SecStats = SecStats(gcStat: seq<nat>, cpCnt: seq<nat>, cprCnt: seq<nat>, ioCounters: seq<nat>,
                               kwrittenByte: nat, fsckStat: seq<nat>, defragStat: seq<nat>)

  const NrGcStat: nat := 12
  const NrIoCounters: nat := 17
  const NrFsckStat: nat := 6
  const NrDefragStat: nat := 6

  function Zeros(n: nat): (r: seq<nat>)
    ensures |r| == n && forall i :: 0 <= i < n ==> r[i] == 0
  {
    seq(n, _ => 0)
  }

  /** Each group has its fixed number of counters. */
  predicate SecStatsShaped(st: SecStats, nrCpReason: nat) {
    |st.gcStat| == NrGcStat && |st.cpCnt| == 3 && |st.cprCnt| == nrCpReason &&
    |st.ioCounters| == NrIoCounters && |st.fsckStat| == NrFsckStat && |st.defragStat| == NrDefragStat
  }

  /** The counters of one group, in the order they are printed. */
  function GroupCounters(st: SecStats, which: SecStat): seq<nat> {
    match which
    case SecGcStat => st.gcStat
    case SecIoStat => st.cpCnt + st.cprCnt + st.ioCounters
    case SecFsckStat => st.fsckStat
    case SecDefragStat => st.defragStat
  }

  /** The counters after one group is reset: zeroes in that group, and for
    * the I/O group the written-bytes mark re-read when the partition has
    * one. */
  function ResetGroup(st: SecStats, which: SecStat, bdPartWritten: Option<nat>): SecStats {
    match which
    case SecGcStat => st.(gcStat := Zeros(|st.gcStat|))
    case SecIoStat =>
      st.(cpCnt := Zeros(|st.cpCnt|), cprCnt := Zeros(|st.cprCnt|), ioCounters := Zeros(|st.ioCounters|),
          kwrittenByte := if bdPartWritten.Some? then bdPartWritten.value else st.kwrittenByte)
    case SecFsckStat => st.(fsckStat := Zeros(|st.fsckStat|))
    case SecDefragStat => st.(defragStat := Zeros(|st.defragStat|))
  }

  /** Resetting a group zeroes every counter of it, keeps the shape, and
    * leaves every other group as it was. */
  lemma ResetGroupZeroes(st: SecStats, which: SecStat, bdPartWritten: Option<nat>, nrCpReason: nat)
    requires SecStatsShaped(st, nrCpReason)
    ensures SecStatsShaped(ResetGroup(st, which, bdPartWritten), nrCpReason)
    ensures var c := GroupCounters(ResetGroup(st, which, bdPartWritten), which);
            |c| == |GroupCounters(st, which)| && forall i :: 0 <= i < |c| ==> c[i] == 0
    ensures forall other :: other != which ==>
              GroupCounters(ResetGroup(st, which, bdPartWritten), other) == GroupCounters(st, other)
  {
    if which == SecIoStat {
      var r := ResetGroup(st, which, bdPartWritten);
      var c := GroupCounters(r, which);
      forall i | 0 <= i < |c| ensures c[i] == 0 {
        if i < 3 {
          assert c[i] == r.cpCnt[i];
        } else if i < 3 + nrCpReason {
          assert c[i] == r.cprCnt[i - 3];
        } else {
          assert c[i] == r.ioCounters[i - 3 - nrCpReason];
        }
      }
    }
  }

  class SbInfo {
    /** NR_CP_REASON, the length of the checkpoint-reason counters. */
    const nrCpReason: nat

    var userBlockCount: nat
    var rootReservedBlocks: nat
    var blocksPerSeg: nat
    var additionalReservedSegments: nat
    var validUserBlocks: nat
    var reservedBlocks: nat
    var currentReservedBlocks: nat

    var discardGranularity: nat
    var blockUnitDiscard: bool
    var segsPerSec: nat
    var migrationGranularity: nat

    var gcMode: nat
    var gcThreadPresent: bool
    var gcWake: bool
    var atgcEnabled: bool
    var gcUrgentHighLimited: bool
    var gcUrgentHighRemaining: nat
    var candidateRatio: nat
    var ageWeight: nat
    var gcSegmentMode: nat
    var gcReclaimedSegs: seq<nat>
    var maxFragmentChunk: nat
    var maxFragmentHole: nat

    var ckptThreadIoprio: nat
    var mergeCheckpoint: bool
    var fuaMode: nat
    var hqmPreserve: bool

    /** Plain unsigned int attributes by name. */
    var plain: map<seq<char>, nat>

    /** Calls made to f2fs_update_extension_list: name, hot, set. */
    var extensionUpdates: seq<ExtensionRequest>

    /** The sec_stat, sec_fsck_stat and defrag counters. */
    var sec: SecStats

    /** The block counts are block_t values, the reclaimed-segment table
      * has one slot per GC mode and the segment mode indexes it, and each
      * statistics group has its fixed number of counters. */
    predicate Valid()
      reads this
    {
      userBlockCount < U32 && validUserBlocks < U32 && reservedBlocks < U32 &&
      |gcReclaimedSegs| == MaxGcMode && gcSegmentMode < MaxGcMode &&
      SecStatsShaped(sec, nrCpReason)
    }

    constructor (nrCpReason: nat, userBlockCount: nat, blocksPerSeg: nat, segsPerSec: nat)
      requires userBlockCount < U32
      ensures Valid() && this.nrCpReason == nrCpReason
      ensures this.userBlockCount == userBlockCount && this.blocksPerSeg == blocksPerSeg
      ensures this.segsPerSec == segsPerSec && gcMode == GcNormal && extensionUpdates == []
    {
      this.nrCpReason := nrCpReason;
      this.userBlockCount := userBlockCount;
      rootReservedBlocks := 0;
      this.blocksPerSeg := blocksPerSeg;
      additionalReservedSegments := 0;
      validUserBlocks := 0;
      reservedBlocks := 0;
      currentReservedBlocks := 0;
      discardGranularity := 1;
      blockUnitDiscard := true;
      this.segsPerSec := segsPerSec;
      migrationGranularity := segsPerSec;
      gcMode := GcNormal;
      gcThreadPresent := false;
      gcWake := false;
      atgcEnabled := false;
      gcUrgentHighLimited := false;
      gcUrgentHighRemaining := 0;
      candidateRatio := 0;
      ageWeight := 0;
      gcSegmentMode := 0;
      gcReclaimedSegs := Zeros(MaxGcMode);
      maxFragmentChunk := MinFragmentSize;
      maxFragmentHole := MinFragmentSize;
      ckptThreadIoprio := 0;
      mergeCheckpoint := false;
      fuaMode := 0;
      hqmPreserve := false;
      plain := map[];
      extensionUpdates := [];
      sec := SecStats(Zeros(NrGcStat), Zeros(3), Zeros(nrCpReason), Zeros(NrIoCounters), 0,
                      Zeros(NrFsckStat), Zeros(NrDefragStat));
    }

    /** The settings the numeric stores write, together. */
    function Tun(): Tunables
      reads this
    {
      Tunables(reservedBlocks, currentReservedBlocks, discardGranularity, migrationGranularity, gcMode,
        gcWake, gcUrgentHighLimited, gcUrgentHighRemaining, candidateRatio, ageWeight, gcSegmentMode,
        gcReclaimedSegs, maxFragmentChunk, maxFragmentHole, plain)
    }

    /** Nothing the numeric stores write has changed. */
    twostate predicate TunablesUnchanged()
      reads this
    {
      Tun() == old(Tun())
    }

    /** The extension log and the statistics have not changed. */
    twostate predicate RestUnchangedButFua()
      reads this
    {
      ckptThreadIoprio == old(ckptThreadIoprio) && extensionUpdates == old(extensionUpdates) &&
      sec == old(sec)
    }

    /** The text-parsed settings and the statistics have not changed. */
    twostate predicate RestUnchanged()
      reads this
    {
      ckptThreadIoprio == old(ckptThreadIoprio) && fuaMode == old(fuaMode) &&
      extensionUpdates == old(extensionUpdates) &&
      sec == old(sec)
    }

    /** The reserved_blocks store for a parsed value t: above the limit
      * it is -EINVAL with no change; otherwise reserved_blocks becomes t
      * and current_reserved_blocks the lesser of it and the user blocks
      * not in use. */
    method ReservedBlocksStore(t: nat, count: nat) returns (r: int)
      requires Valid() && t < U64
      modifies this
      ensures Valid() && RestUnchanged()
      ensures r == count <==> t <= ReservedLimit(userBlockCount, rootReservedBlocks, blocksPerSeg, additionalReservedSegments)
      ensures Tun() == if r == count
                       then old(Tun()).(reservedBlocks := t,
                                        currentReservedBlocks := Min(t, ToU32(userBlockCount - validUserBlocks)))
                       else old(Tun())
      ensures r != count ==> r == -EINVAL
      ensures currentReservedBlocks <= reservedBlocks || TunablesUnchanged()
    {
      if t > ReservedLimit(userBlockCount, rootReservedBlocks, blocksPerSeg, additionalReservedSegments) {
        return -EINVAL;
      }
      reservedBlocks := t;
      currentReservedBlocks := Min(reservedBlocks, ToU32(userBlockCount - validUserBlocks));
      return count;
    }

    /** The discard_granularity store: 1 .. MAX_PLIST_NUM, and only with
      * block-unit discard. */
    method DiscardGranularityStore(t: nat, count: nat) returns (r: int)
      requires Valid()
      modifies this
      ensures Valid() && RestUnchanged()
      ensures r == count <==> 1 <= t <= MaxPlistNum && blockUnitDiscard
      ensures Tun() == if r == count then old(Tun()).(discardGranularity := t) else old(Tun())
      ensures r != count ==> r == -EINVAL
    {
      if t == 0 || t > MaxPlistNum {
        return -EINVAL;
      }
      if !blockUnitDiscard {
        return -EINVAL;
      }
      if t == discardGranularity {
        return count;
      }
      discardGranularity := t;
      return count;
    }

    /** The migration_granularity store: 1 .. segs_per_sec, kept as an
      * unsigned int. */
    method MigrationGranularityStore(t: nat, count: nat) returns (r: int)
      requires Valid()
      modifies this
      ensures Valid() && RestUnchanged()
      ensures r == count <==> 1 <= t <= segsPerSec
      ensures Tun() == if r == count then old(Tun()).(migrationGranularity := ToU32(t)) else old(Tun())
      ensures r != count ==> r == -EINVAL
    {
      if t == 0 || t > segsPerSec {
        return -EINVAL;
      }
      migrationGranularity := ToU32(t);
      return count;
    }

    /** The gc_urgent store: the mode GcUrgentMode names, waking the GC
      * thread, when there is one, for the high urgency. */
    method GcUrgentStore(t: nat, count: nat) returns (r: int)
      requires Valid()
      modifies this
      ensures Valid() && RestUnchanged()
      ensures r == count <==> GcUrgentMode(t).Some?
      ensures Tun() == if r == count
                       then old(Tun()).(gcMode := GcUrgentMode(t).value, gcWake := old(gcWake) || (t == 1 && gcThreadPresent))
                       else old(Tun())
      ensures r != count ==> r == -EINVAL
    {
      if t == 0 {
        gcMode := GcNormal;
      } else if t == 1 {
        gcMode := GcUrgentHigh;
        if gcThreadPresent {
          gcWake := true;
        }
      } else if t == 2 {
        gcMode := GcUrgentLow;
      } else {
        return -EINVAL;
      }
      return count;
    }

    /** The gc_idle store: the mode GcIdleMode names. */
    method GcIdleStore(t: nat, count: nat) returns (r: int)
      requires Valid()
      modifies this
      ensures Valid() && RestUnchanged()
      ensures r == count <==> GcIdleMode(t, atgcEnabled).Some?
      ensures Tun() == if r == count then old(Tun()).(gcMode := GcIdleMode(t, atgcEnabled).value) else old(Tun())
      ensures r != count ==> r == -EINVAL
    {
      if t == GcIdleCb {
        gcMode := GcIdleCb;
      } else if t == GcIdleGreedy {
        gcMode := GcIdleGreedy;
      } else if t == GcIdleAt {
        if !atgcEnabled {
          return -EINVAL;
        }
        gcMode := GcIdleAt;
      } else {
        gcMode := GcNormal;
      }
      return count;
    }

    /** The gc_urgent_high_remaining store: a non-zero count limits the
      * urgent-high runs to that many. */
    method GcUrgentHighRemainingStore(t: nat, count: nat) returns (r: int)
      requires Valid()
      modifies this
      ensures Valid() && RestUnchanged() && r == count
      ensures Tun() == old(Tun()).(gcUrgentHighLimited := t != 0, gcUrgentHighRemaining := ToU32(t))
    {
      gcUrgentHighLimited := t != 0;
      gcUrgentHighRemaining := ToU32(t);
      return count;
    }

    /** The atgc_candidate_ratio and atgc_age_weight stores: percentages,
      * so at most 100. */
    method AtgcStore(ageWeightAttr: bool, t: nat, count: nat) returns (r: int)
      requires Valid()
      modifies this
      ensures Valid() && RestUnchanged()
      ensures r == count <==> t <= 100
      ensures Tun() == if r != count then old(Tun())
                       else if ageWeightAttr then old(Tun()).(ageWeight := t)
                       else old(Tun()).(candidateRatio := t)
      ensures r != count ==> r == -EINVAL
    {
      if t > 100 {
        return -EINVAL;
      }
      if ageWeightAttr {
        ageWeight := t;
      } else {
        candidateRatio := t;
      }
      return count;
    }

    /** The gc_segment_mode store: one of the GC modes. */
    method GcSegmentModeStore(t: nat, count: nat) returns (r: int)
      requires Valid()
      modifies this
      ensures Valid() && RestUnchanged()
      ensures r == count <==> t < MaxGcMode
      ensures Tun() == if r == count then old(Tun()).(gcSegmentMode := t) else old(Tun())
      ensures r != count ==> r == -EINVAL
    {
      if t < MaxGcMode {
        gcSegmentMode := t;
      } else {
        return -EINVAL;
      }
      return count;
    }

    /** The gc_reclaimed_segments store: only 0, which clears the count of
      * the current segment mode. */
    method GcReclaimedSegmentsStore(t: nat, count: nat) returns (r: int)
      requires Valid()
      modifies this
      ensures Valid() && RestUnchanged()
      ensures r == count <==> t == 0
      ensures Tun() == if r == count then old(Tun()).(gcReclaimedSegs := old(gcReclaimedSegs)[gcSegmentMode := 0]) else old(Tun())
      ensures r != count ==> r == -EINVAL
    {
      if t != 0 {
        return -EINVAL;
      }
      gcReclaimedSegs := gcReclaimedSegs[gcSegmentMode := 0];
      return count;
    }

    /** The max_fragment_chunk and max_fragment_hole stores: a size of
      * MIN_FRAGMENT_SIZE .. MAX_FRAGMENT_SIZE blocks. */
    method MaxFragmentStore(holeAttr: bool, t: nat, count: nat) returns (r: int)
      requires Valid()
      modifies this
      ensures Valid() && RestUnchanged()
      ensures r == count <==> MinFragmentSize <= t <= MaxFragmentSize
      ensures Tun() == if r != count then old(Tun())
                       else if holeAttr then old(Tun()).(maxFragmentHole := t)
                       else old(Tun()).(maxFragmentChunk := t)
      ensures r != count ==> r == -EINVAL
    {
      if MinFragmentSize <= t <= MaxFragmentSize {
        if holeAttr {
          maxFragmentHole := t;
        } else {
          maxFragmentChunk := t;
        }
      } else {
        return -EINVAL;
      }
      return count;
    }

    /** Any other attribute: trim_sections refuses every write with
      * -EINVAL and stores nothing; the others take the number, cut to an
      * unsigned int. */
    method PlainStore(name: seq<char>, t: nat, count: nat) returns (r: int)
      requires Valid()
      modifies this
      ensures Valid() && RestUnchanged()
      ensures name == "trim_sections" ==> r == -EINVAL && Tun() == old(Tun())
      ensures name != "trim_sections" ==>
                r == count && Tun() == old(Tun()).(plain := old(plain)[name := ToU32(t)]) && plain[name] < U32
    {
      if name == "trim_sections" {
        return -EINVAL;
      }
      plain := plain[name := ToU32(t)];
      return count;
    }

    /** The extension_list store: a malformed text is -EINVAL with no
      * call made; otherwise the list is updated, and when committing the
      * superblock then fails the update is undone. The result is the
      * first error, or count. */
    method ExtensionListStore(buf: seq<char>, count: nat, env: StoreEnv) returns (r: int)
      requires Valid()
      modifies this
      ensures Valid() && TunablesUnchanged()
      ensures ParseExtension(Strim(CString(buf))).None? ==> r == -EINVAL && extensionUpdates == old(extensionUpdates)
      ensures ParseExtension(Strim(CString(buf))).Some? ==>
                var req := ParseExtension(Strim(CString(buf))).value;
                if env.updateExtensionErr != 0 then
                  r == env.updateExtensionErr && extensionUpdates == old(extensionUpdates) + [req]
                else if env.commitSuperErr != 0 then
                  r == env.commitSuperErr &&
                  extensionUpdates == old(extensionUpdates) + [req, ExtensionRequest(req.hot, !req.add, req.name)]
                else
                  r == count && extensionUpdates == old(extensionUpdates) + [req]
      ensures ckptThreadIoprio == old(ckptThreadIoprio) && fuaMode == old(fuaMode)
      ensures sec == old(sec)
    {
      var name := StrimText(buf);
      var parsed := ParseExtension(name);
      match parsed
      case None =>
        return -EINVAL;
      case Some(req) =>
        extensionUpdates := extensionUpdates + [req];
        if env.updateExtensionErr != 0 {
          return env.updateExtensionErr;
        }
        if env.commitSuperErr != 0 {
          extensionUpdates := extensionUpdates + [ExtensionRequest(req.hot, !req.add, req.name)];
          return env.commitSuperErr;
        }
        return count;
    }

    /** The ckpt_thread_ioprio store: a text not starting "rt," or "be,"
      * is -EINVAL, a failed kstrtol its error, a level outside 0 ..
      * IOPRIO_BE_NR-1 -EINVAL, all without change; otherwise the priority
      * is stored, and with merged checkpointing applied to the thread,
      * whose error is returned. */
    method CkptThreadIoprioStore(buf: seq<char>, count: nat, level: Parsed, env: StoreEnv) returns (r: int)
      requires Valid()
      modifies this
      ensures Valid() && TunablesUnchanged()
      ensures var cls := IoprioPrefixClass(Strim(CString(buf)));
              if cls.None? then r == -EINVAL && ckptThreadIoprio == old(ckptThreadIoprio)
              else if level.Error? then r == level.code && ckptThreadIoprio == old(ckptThreadIoprio)
              else if !(0 <= level.v < IoprioBeNr) then r == -EINVAL && ckptThreadIoprio == old(ckptThreadIoprio)
              else ckptThreadIoprio == IoprioValue(cls.value, level.v) &&
                   r == (if mergeCheckpoint && env.setIoprioErr != 0 then env.setIoprioErr else count)
      ensures fuaMode == old(fuaMode) && extensionUpdates == old(extensionUpdates)
      ensures sec == old(sec)
    {
      var name := StrimText(buf);
      var cls := IoprioPrefixClass(name);
      if cls.None? {
        return -EINVAL;
      }
      match level
      case Error(code) =>
        return code;
      case Value(data) =>
        if data >= IoprioBeNr || data < 0 {
          return -EINVAL;
        }
        ckptThreadIoprio := IoprioValue(cls.value, data);
        if mergeCheckpoint {
          if env.setIoprioErr != 0 {
            return env.setIoprioErr;
          }
        }
        return count;
    }

    /** The ckpt_thread_ioprio show. */
    method CkptThreadIoprioShow() returns (r: Option<seq<char>>)
      ensures r == IoprioShow(ckptThreadIoprio)
    {
      var cls := ckptThreadIoprio / 8192;
      var data := ckptThreadIoprio % 8192;
      if cls == IoprioClassRt {
        r := Some("rt,");
      } else if cls == IoprioClassBe {
        r := Some("be,");
      } else {
        return None;
      }
      r := Some(r.value + Decimal(data) + "\n");
    }

    /** The sec_fua_mode store: the mode becomes the index of the name the
      * trimmed text equals, and stays when it equals none. */
    method FuaModeStore(buf: seq<char>, count: nat) returns (r: int)
      modifies this
      ensures r == count
      ensures var m := FuaMatch(Strim(CString(buf)), |FuaModeNames|);
              fuaMode == if m.Some? then m.value else old(fuaMode)
      ensures TunablesUnchanged() && RestUnchangedButFua()
    {
      var mode := StrimText(buf);
      var chosen := fuaMode;
      var idx := 0;
      while idx < |FuaModeNames|
        invariant 0 <= idx <= |FuaModeNames|
        invariant chosen == if FuaMatch(mode, idx).Some? then FuaMatch(mode, idx).value else fuaMode
      {
        if mode == FuaModeNames[idx] {
          chosen := idx;
        }
        idx := idx + 1;
      }
      fuaMode := chosen;
      return count;
    }

    /** The sec_fua_mode show as written: every entry is printed at the
      * start of the buffer, so only the last one is there, while the
      * returned length adds up all three. */
    method FuaModeShowAsWritten() returns (buf: seq<char>, len: nat)
      ensures buf == FuaEntry(fuaMode, |FuaModeNames| - 1)
      ensures len == |FuaListing(fuaMode, |FuaModeNames|)|
    {
      buf := [];
      len := 0;
      var i := 0;
      while i < |FuaModeNames|
        invariant 0 <= i <= |FuaModeNames|
        invariant len == |FuaListing(fuaMode, i)|
        invariant i > 0 ==> buf == FuaEntry(fuaMode, i - 1)
      {
        var entry := if i == fuaMode then "[" + FuaModeNames[i] + "] " else FuaModeNames[i] + " ";
        buf := entry;
        len := len + |entry|;
        i := i + 1;
      }
    }

    /** The sec_fua_mode show writing each entry after the previous one:
      * the three names, the current one bracketed. */
    method FuaModeShow() returns (buf: seq<char>)
      ensures buf == FuaListing(fuaMode, |FuaModeNames|)
    {
      buf := [];
      var i := 0;
      while i < |FuaModeNames|
        invariant 0 <= i <= |FuaModeNames|
        invariant buf == FuaListing(fuaMode, i)
      {
        var entry := if i == fuaMode then "[" + FuaModeNames[i] + "] " else FuaModeNames[i] + " ";
        buf := buf + entry;
        i := i + 1;
      }
    }

    /** __sec_bigdata_init_value: the named group is reset as ResetGroup
      * says, the checkpoint-reason counters one at a time. */
    method SecBigdataInitValue(which: SecStat, bdPartWritten: Option<nat>)
      requires Valid()
      modifies this
      ensures Valid() && TunablesUnchanged()
      ensures sec == ResetGroup(old(sec), which, bdPartWritten)
      ensures ckptThreadIoprio == old(ckptThreadIoprio) && fuaMode == old(fuaMode)
      ensures extensionUpdates == old(extensionUpdates)
    {
      match which
      case SecGcStat =>
        sec := sec.(gcStat := Zeros(NrGcStat));
      case SecIoStat =>
        var cnt := sec.cprCnt;
        var i := 0;
        while i < nrCpReason
          invariant 0 <= i <= nrCpReason && |cnt| == nrCpReason
          invariant forall j :: 0 <= j < nrCpReason ==> cnt[j] == (if j < i then 0 else sec.cprCnt[j])
        {
          cnt := cnt[i := 0];
          i := i + 1;
        }
        var written := if bdPartWritten.Some? then bdPartWritten.value else sec.kwrittenByte;
        sec := sec.(cpCnt := Zeros(3), cprCnt := cnt, ioCounters := Zeros(NrIoCounters), kwrittenByte := written);
      case SecFsckStat =>
        sec := sec.(fsckStat := Zeros(NrFsckStat));
      case SecDefragStat =>
        sec := sec.(defragStat := Zeros(NrDefragStat));
    }

    /** Reading a statistics group reports its counters and then, unless
      * sec_hqm_preserve is set, resets them. */
    method SecStatShow(which: SecStat, bdPartWritten: Option<nat>) returns (shown: seq<nat>)
      requires Valid()
      modifies this
      ensures Valid() && shown == GroupCounters(old(sec), which)
      ensures sec == if old(hqmPreserve) then old(sec) else ResetGroup(old(sec), which, bdPartWritten)
      ensures TunablesUnchanged()
    {
      shown := GroupCounters(sec, which);
      if !hqmPreserve {
        SecBigdataInitValue(which, bdPartWritten);
      }
    }
  }

  /** Every item is a non-empty text. */
  predicate NonEmptyItems(items: seq<seq<char>>) {
    forall i :: 0 <= i < |items| ==> |items[i]| > 0
  }

  /** Selecting from one more name adds it exactly when it is present. */
  lemma SelectedStep(names: seq<seq<char>>, present: seq<bool>, i: nat)
    requires |present| == |names| && i < |names|
    ensures Selected(names[..i + 1], present[..i + 1]) ==
            Selected(names[..i], present[..i]) + (if present[i] then [names[i]] else [])
  {
    assert names[..i + 1][..i] == names[..i] && present[..i + 1][..i] == present[..i];
  }

  /** The present names joined by ", ", appended one at a time. */
  method JoinPresent(names: seq<seq<char>>, present: seq<bool>) returns (buf: seq<char>)
    requires |present| == |names| && NonEmptyItems(names)
    ensures buf == Join(Selected(names, present))
  {
    buf := [];
    var i := 0;
    while i < |names|
      invariant 0 <= i <= |names|
      invariant buf == Join(Selected(names[..i], present[..i]))
    {
      var sel := Selected(names[..i], present[..i]);
      assert NonEmptyItems(sel) by {
        forall k | 0 <= k < |sel| ensures |sel[k]| > 0 {
          assert sel[k] in names[..i];
        }
      }
      SelectedStep(names, present, i);
      JoinStep(sel, names[i]);
      if present[i] {
        buf := buf + (if |buf| > 0 then ", " else "") + names[i];
        assert buf == Join(sel + [names[i]]);
      } else {
        assert sel + [] == sel;
      }
      i := i + 1;
    }
    assert names[..i] == names && present[..i] == present;
  }

  /** features_show: the present optional features, then "pin_file",
    * separated by ", ", then a newline. */
  method FeaturesShow(present: seq<bool>) returns (buf: seq<char>)
    requires |present| == |FeatureNames|
    ensures buf == Join(Selected(FeatureNames, present) + ["pin_file"]) + "\n"
  {
    FeatureNamesNonEmpty();
    buf := JoinPresent(FeatureNames, present);
    var sel := Selected(FeatureNames, present);
    assert NonEmptyItems(sel) by {
      forall k | 0 <= k < |sel| ensures |sel[k]| > 0 {
        assert sel[k] in FeatureNames;
      }
    }
    JoinStep(sel, "pin_file");
    buf := buf + (if |buf| > 0 then ", " else "") + "pin_file";
    buf := buf + "\n";
  }
}

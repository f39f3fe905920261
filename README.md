# A verified model of selected parts of a Samsung SM8250 Android kernel tree

This project models in Dafny the core logic of twenty-two files of the
tree (kernel sources and headers, and two build-side tools), and proves
what each one promises. Each source file is one module in one `.dfy` file. A file made of
pure expressions becomes functions and lemmas. A file that updates state
becomes classes and methods, each proved against a specification function.
`common.dfy` (module `Wrappers`) holds what several modules share: `Option`,
the errno values, the integer widths with their wrap-around, decimal and
hexadecimal text.

| module | file | what is modelled |
|---|---|---|
| `InsertKunit` | `insert_kunit.dfy` | `tools/testing/kunit/insert_kunit.py`: name derivation, guard extraction from the Makefile, whitespace-insensitive containment, the append/write helpers over a file-system object, and one whole run, with run-twice idempotence |
| `KernelTime` | `time.dfy` | `include/linux/time.h`: `mktime64` against the Gregorian calendar, `time_after32`/`time_before32`/`time_between32` against the real order, `itimerspec64_valid` |
| `Hgsmi` | `hgsmi.dfy` | `drivers/staging/vboxvideo/vbox_hgsmi.c`: the one-at-a-time hash, the checksum, and the header/data/tail layout of alloc and free |
| `Gcov` | `gcov.dfy` | `kernel/gcov/gcc_4_7.c`: the `.gcda` serialiser and its size, counter reset and add, the file iterator, the data-set list |
| `FdtGet` | `fdtget.dfy` | `scripts/dtc-aosp/fdtget.c`: cell and string display, property and sub-node listing, `do_fdtget` and `main`'s argument checks |
| `Evmcs` | `evmcs.dfy` | `arch/x86/kvm/vmx_evmcs.h`: `ROL16`, the field table and `get_evmcs_offset` |
| `GicV3` | `gicv3.dfy` | `include/linux/irqchip/arm-gic-v3.h`: register-field decoders, `GIC_ENCODE_SZ`, 52-bit address packing, GICv4 command numbers, `gic_enable_sre` |
| `DsiDefs` | `dsi.dfy` | `techpack/display/msm/dsi/dsi_defs.h`: timing totals with the DSC substitution, rectangle equality, bits per pixel, lane and clock bits |
| `LedsKtd2692` | `leds_ktd2692.dfy` | `include/linux/leds-ktd2692.h`: current-to-code conversions and torch steps |
| `LedsS2mpb02` | `leds_s2mpb02.dfy` | `include/linux/leds-s2mpb02.h`: the LV_SEL voltage code and the register masks |
| `Zdata` | `zdata.dfy` | `fs/erofs/zdata.h`: pcluster pages and the online-page word (init, index, fixup, endio), attach/detach of page private |
| `KgslMemfree` | `kgsl_memfree.dfy` | `drivers/gpu/msm/kgsl.c`: the ring of recent frees (add, find, purge) |
| `Kgsl` | `kgsl.dfy` | `drivers/gpu/msm/kgsl.c`: command classification, the sparse parameter check, the sparse bind tree, metadata copy, the pending-free flag, cache-op selection, the flag filters |
| `Schedutil` | `schedutil.dfy` | `kernel/sched/cpufreq_schedutil.c`: rate limits, the IO-wait boost, CPU utilisation, tunable stores |
| `ArchTopology` | `arch_topology.dfy` | `drivers/base/arch_topology.c`: frequency scales, `cpu_capacity` store, capacity parsing and normalisation, the cpufreq callback |
| `DamonLruSort` | `lru_sort.dfy` | `mm/damon/lru_sort.c`: thresholds, the hot and cold schemes, parameter application, the enable timer, commit inputs |
| `F2fsSysfs` | `f2fs_sysfs.dfy` | `fs/f2fs/sysfs.c`: the store validators and parsers, the SEC statistics, `ckpt_thread_ioprio`, `features_show`, `sec_fua_mode` |
| `IpaIntf` | `ipa_intf.dfy` | `drivers/platform/msm/ipa/ipa_v2/ipa_intf.c`: the interface registry, the message FIFO, the WLAN client cache, the pull-message registry |
| `Rhashtable` | `rhashtable.dfy` | `include/linux/rhashtable.h`: bucket index, load-factor predicates, lookup, insert, remove, replace |
| `SsPanelDebug` | `ss_panel_debug.dfy` | `techpack/display/msm/samsung/ss_dsi_panel_debug.c`: the xlog dump range and entries, the panic dump, the SMMU debug list |
| `TraceIrqsoff` | `irqsoff.dfy` | `kernel/trace/trace_irqsoff.c`: latency reporting, critical-section timing, the tracer's init and reset |
| `BackingDev` | `backing_dev.dfy` | `mm/backing-dev.c`: `read_ahead_kb` show/store, congestion bits and counters, the congested table with its reference counts, wb/bdi init, `wait_iff_congested` |
| `Falcon` | `falcon.dfy` | `drivers/gpu/drm/tegra/falcon.c`: firmware image parsing, buffer load and free, the boot register sequence with its chunked copy |

Assumptions that hold throughout:
- The machine is a 64-bit little-endian one with 4 KiB pages.
- `CONFIG_CGROUP_WRITEBACK` is set.
- C integers are unbounded integers whose width is written out wherever the
  source wraps, truncates or reads a value back as signed.
- Locks, RCU, memory barriers and other CPUs are not modelled: each
  operation runs alone. Where another CPU's store matters (the EROFS
  online-page word), the competing values are a parameter.
- Clocks, allocator outcomes, hardware polls and the results of calls into
  code outside the model are parameters.

Where the code and its own comments disagree, the model follows the code:
- The comment in `__rhashtable_replace_fast` (`include/linux/rhashtable.h`,
  line 1028) asks for the old and new objects to have the same hash, but
  the code compares bucket indices (`rht_head_hashfn`), not raw hashes.
- The comment on `time_between32` (`include/linux/time.h`, line 145) calls
  it equivalent to `!(time_before32(t, l) || time_after32(t, h))`. That
  holds only while `h - l` is below 2^31
  (`KernelTime.TimeBetween32AsBeforeAfter`).
  `KernelTime.TimeBetween32WideRange` gives a case where it fails.

Other facts about the code that the model keeps:
- `__rhashtable_insert_fast` links a fresh object at the tail of its
  chain, because `pprev` walks the whole chain.
- The test source that `insert_kunit.py` writes keeps the dashes of the
  stem (`my-driver_test.c`), while the Kconfig symbol turns them into
  underscores (`CONFIG_MY_DRIVER_TEST`).
- `__ss_dump_xlog_calc_range` can report a range to dump even when first ==
  last after the wrap adjustment.

## Model

Each row names a member whose contract states the property, the source lines it models, and what the contract says.

| member | source | states |
|---|---|---|
| InsertKunit.ReplaceAll | tools/testing/kunit/insert_kunit.py:164 | a string without the pattern is left as it is |
| InsertKunit.ReplaceLeading | tools/testing/kunit/insert_kunit.py:164 | a leading occurrence of the pattern becomes the replacement and the rest is replaced on |
| InsertKunit.KconfigProbeStripsPrefix | tools/testing/kunit/insert_kunit.py:164-166 | for a stem that does not spell out CONFIG_, append_kconfig probes for "config " and the test symbol without its CONFIG_ prefix |
| InsertKunit.DashToUnderscore | tools/testing/kunit/insert_kunit.py:69 | every '-' becomes '_' and every other character stays, position by position |
| InsertKunit.Upper | tools/testing/kunit/insert_kunit.py:70 | each character is upper-cased in place |
| InsertKunit.LastIndexOf | tools/testing/kunit/insert_kunit.py:30 | the last position of the character, or -1 when it does not occur |
| InsertKunit.RStripSlashes | tools/testing/kunit/insert_kunit.py:30 | strips exactly the trailing slashes of the head |
| InsertKunit.Split | tools/testing/kunit/insert_kunit.py:30 | the tail is the slash-free suffix after the last '/', and a path without '/' has an empty head |
| InsertKunit.StripExt | tools/testing/kunit/insert_kunit.py:32 | the stem is a prefix of the file name |
| InsertKunit.SplitSourcePath | tools/testing/kunit/insert_kunit.py:62 | os.path.split of dir/name gives back dir and name |
| InsertKunit.StripExtOfC | tools/testing/kunit/insert_kunit.py:63 | os.path.splitext drops the ".c" of stem.c |
| InsertKunit.Lead | tools/testing/kunit/insert_kunit.py:115 | counts exactly the leading spaces |
| InsertKunit.Trail | tools/testing/kunit/insert_kunit.py:115 | counts exactly the trailing spaces |
| InsertKunit.Trim | tools/testing/kunit/insert_kunit.py:115 | the result has no space at either end and is the middle of the input |
| InsertKunit.SqueezeConcat | tools/testing/kunit/insert_kunit.py:115 | collapsing whitespace in f + c is the collapse of f followed by the collapse of c, minus at most one joining space |
| InsertKunit.CollapseInfix | tools/testing/kunit/insert_kunit.py:114-117 | text found in a file is still found after both are normalised by ' '.join(s.split()) |
| InsertKunit.ContainStable | tools/testing/kunit/insert_kunit.py:113-120 | text contained in a file stays contained after more text is appended |
| InsertKunit.ContainAfterAppend | tools/testing/kunit/insert_kunit.py:126-135 | content appended to a file is contained in it |
| InsertKunit.AppendIfAbsentIdempotent | tools/testing/kunit/insert_kunit.py:130-135 | after appending if absent the content is present, and appending it again changes nothing |
| InsertKunit.ContainIgnoresLayout | tools/testing/kunit/insert_kunit.py:113-120 | two texts that collapse to the same string are contained in the same files |
| InsertKunit.SplitLinesShape | tools/testing/kunit/insert_kunit.py:42 | iterating a file's lines gives non-empty lines, each ending at its only newline, that concatenate back to the file |
| InsertKunit.CloseAt | tools/testing/kunit/insert_kunit.py:51 | finds the first ')' on the line after a position, with no newline before it, or reports there is none |
| InsertKunit.MatchStart | tools/testing/kunit/insert_kunit.py:53 | re.search finds the leftmost position where the obj-$(...) pattern matches, or none exists |
| InsertKunit.ExtractConfigSpec | tools/testing/kunit/insert_kunit.py:49-55 | a match gives the text inside the first obj-$(...) of the line, without ')' or newline; there is none iff the pattern matches nowhere |
| InsertKunit.LastGuardAppend | tools/testing/kunit/insert_kunit.py:41-47 | the guard of a file split in two is the second part's when it has one, else the first part's |
| InsertKunit.LaterGuardWins | tools/testing/kunit/insert_kunit.py:41-55 | when two lines name the object, the later line's guard is the result |
| InsertKunit.KconfigNameShape | tools/testing/kunit/insert_kunit.py:69-70 | the Kconfig symbol holds no '-' and no lower-case letter |
| InsertKunit.CreatePathFields | tools/testing/kunit/insert_kunit.py:61-71 | the directory, file name, stem, Kconfig symbol and test object name derive from the path as the constructor computes them |
| InsertKunit.NameDerivation | tools/testing/kunit/insert_kunit.py:61-71 | for dir/stem.c the symbol is CONFIG_<STEM upper-cased with '_' for '-'>_TEST, the object is stem-test.o and the driver is dir/kunit_test/stem_test.c |
| InsertKunit.MyDriverSymbol | tools/testing/kunit/insert_kunit.py:69-70 | a dashed stem, my-driver.c, gets CONFIG_MY_DRIVER_TEST: '-' becomes '_' before upper-casing |
| InsertKunit.MyDriverUnderscoreSymbol | tools/testing/kunit/insert_kunit.py:69-70 | the stem my_driver gets the symbol CONFIG_MY_DRIVER_TEST |
| InsertKunit.DocumentedTree | tools/testing/kunit/insert_kunit.py:2-12 | the docstring's tree: my_driver.c gets its test source at kunit_test/my_driver_test.c, guarded by CONFIG_MY_DRIVER_TEST |
| InsertKunit.TestDriverPath | tools/testing/kunit/insert_kunit.py:186 | the test source is dir/kunit_test/stem_test.c |
| InsertKunit.FileSystem.Append | tools/testing/kunit/insert_kunit.py:133-135 | the file gets the text at its end and nothing else changes |
| InsertKunit.FileSystem.Create | tools/testing/kunit/insert_kunit.py:147-148 | the file holds exactly the text and nothing else changes |
| InsertKunit.FileSystem.Mkdir | tools/testing/kunit/insert_kunit.py:97-101 | os.mkdir as MkdirSpec says: it creates the directory, or exits when the path exists or its parent does not |
| InsertKunit.SearchFile | tools/testing/kunit/insert_kunit.py:37-47 | exit 1 without a Makefile, else the guard of the last line naming the object |
| InsertKunit.AppendContentIdempotent | tools/testing/kunit/insert_kunit.py:126-138 | a missing target exits with 1 and changes nothing; on success the content is present and a second append changes nothing |
| InsertKunit.WriteContentIdempotent | tools/testing/kunit/insert_kunit.py:140-152 | a new file is created with the content; on success the content is present and a second write changes nothing |
| InsertKunit.TestConstructor.IsContainFile | tools/testing/kunit/insert_kunit.py:113-120 | true iff the file holds the content once whitespace is collapsed on both sides |
| InsertKunit.TestConstructor.AppendContent | tools/testing/kunit/insert_kunit.py:126-138 | exit 1 for a missing target, nothing when the content is present, else the content is appended |
| InsertKunit.TestConstructor.WriteContent | tools/testing/kunit/insert_kunit.py:140-152 | an existing file gets the content appended unless present; a missing one is created with it |
| InsertKunit.TestConstructor.AppendMakefile | tools/testing/kunit/insert_kunit.py:154-160 | appends the kunit_test/ rule, then the GCOV_PROFILE line, each only when absent |
| InsertKunit.TestConstructor.AppendKconfig | tools/testing/kunit/insert_kunit.py:162-168 | nothing when "config <symbol>" is present, else the Kconfig block between newlines |
| InsertKunit.TestMakefileFirstLine | tools/testing/kunit/insert_kunit.py:174-181 | the first line is gated by $(guard), or y when there is none; the second by the test's own symbol |
| InsertKunit.TestConstructor.WriteTestMakefile | tools/testing/kunit/insert_kunit.py:170-183 | writes the two kunit_test/Makefile lines, each only when absent |
| InsertKunit.TestConstructor.WriteTestDriver | tools/testing/kunit/insert_kunit.py:185-188 | writes the test skeleton to kunit_test/stem_test.c unless already present |
| InsertKunit.RunPathsDistinct | tools/testing/kunit/insert_kunit.py:155-186 | the four files the tool edits are pairwise distinct |
| InsertKunit.TwoAppends | tools/testing/kunit/insert_kunit.py:159-160 | two appends to an existing file both succeed, both texts are present, and nothing else changes |
| InsertKunit.TwoWrites | tools/testing/kunit/insert_kunit.py:182-183 | when both writes succeed the file holds both lines and nothing else changes |
| InsertKunit.AppendMakefileStep | tools/testing/kunit/insert_kunit.py:154-160 | append_makefile on an existing Makefile succeeds, leaves both fragments present and changes nothing else |
| InsertKunit.GuardAfterRule | tools/testing/kunit/insert_kunit.py:156-160 | the appended rule and coverage line do not change the guard found for the object |
| InsertKunit.SettledInsertNothing | tools/testing/kunit/insert_kunit.py:126-188 | when every fragment is present, the insertions change nothing |
| InsertKunit.InsertStepsSettle | tools/testing/kunit/insert_kunit.py:199-202 | after a successful run every fragment is present, no directory changes and no file disappears |
| InsertKunit.InsertStepsTwice | tools/testing/kunit/insert_kunit.py:199-202 | repeating the insertions after a successful run changes nothing and finds the same guard |
| InsertKunit.Run | tools/testing/kunit/insert_kunit.py:196-204 | the run does what RunSpec says and reports dir/kunit_test/stem_test.c on success |
| InsertKunit.RunIdempotent | tools/testing/kunit/insert_kunit.py:196-204 | running the tool a second time on the same file succeeds and changes nothing |
| KernelTime.ShiftMonth | include/linux/time.h:44-50 | months 1..12 rotate to 11,12,1..10 and January and February fall in the previous year, all in unsigned int |
| KernelTime.DayTerm | include/linux/time.h:52-53 | the day term is computed in unsigned int and stays a 32-bit value |
| KernelTime.MkTime64 | include/linux/time.h:41-58 | the 64-bit signed result never overflows, whatever unsigned inputs are passed |
| KernelTime.NoWrap | include/linux/time.h:44-54 | for years up to 10^6 no unsigned intermediate wraps, so the day term equals the unbounded day count |
| KernelTime.MkTime64Affine | include/linux/time.h:52-58 | for such dates the result is days*86400 + hour*3600 + min*60 + sec |
| KernelTime.DaysInMonth | include/linux/time.h:22-23 | a Gregorian month has 28 to 31 days |
| KernelTime.EpochIsZero | include/linux/time.h:22 | 1970-01-01 00:00:00 converts to 0 |
| KernelTime.LeapSecond | include/linux/time.h:33-35 | second 60 is the same instant as second 0 of the next minute |
| KernelTime.MidnightTomorrow | include/linux/time.h:37-38 | 24:00 of a day is 00:00 of the following day |
| KernelTime.EpochDaysFebruary | include/linux/time.h:47-48 | the step from the shifted December to the shifted January is February's length, leap day included |
| KernelTime.EpochDaysMonthStep | include/linux/time.h:52-53 | each month step of the shifted day count is that month's length |
| KernelTime.MonthLength | include/linux/time.h:22-23 | the first of the next month is exactly DaysInMonth*86400 seconds after the first of this month, so the closed form follows the Gregorian calendar |
| KernelTime.TimeAfter32Correct | include/linux/time.h:133-134 | for real times less than 2^31 apart, time_after32 and time_before32 agree with the real order, in both directions |
| KernelTime.TimeBetween32Correct | include/linux/time.h:147 | when t and h are less than 2^32 past l, time_between32 holds iff t <= h |
| KernelTime.TimeBetween32AsBeforeAfter | include/linux/time.h:145-147 | while h - l is below 2^31, time_between32 equals !(time_before32(t,l) or time_after32(t,h)) |
| KernelTime.TimeBetween32WideRange | include/linux/time.h:145-147 | with a range of 2^31 or more that equivalence fails: a t inside the range is also before l |
| KernelTime.ItimerspecValid | include/linux/time.h:111-118 | true iff both the interval and the value are valid timespecs |
| Hgsmi.HashProcess | drivers/staging/vboxvideo/vbox_hgsmi.c:32-41 | the byte loop computes the one-at-a-time fold of the data from the given hash |
| Hgsmi.HashFoldConcat | drivers/staging/vboxvideo/vbox_hgsmi.c:59-62 | hashing a ++ b continues from the hash of a, so the three chained calls hash offset ++ header ++ tail prefix |
| Hgsmi.Le32RoundTrip | drivers/staging/vboxvideo/vbox_hgsmi.c:59 | the little-endian image of a u32 reads back as the same value |
| Hgsmi.ChecksumCoverage | drivers/staging/vboxvideo/vbox_hgsmi.c:53-65 | the checksum is the hash of the u32 offset, the whole 16-byte header and tail.reserved only, so it does not depend on the checksum field |
| Hgsmi.DataSize | drivers/staging/vboxvideo/vbox_hgsmi.c:83 | data_size is the size truncated to 32 bits, equal to it below 2^32 |
| Hgsmi.AllocHeader | drivers/staging/vboxvideo/vbox_hgsmi.c:82-86 | the header carries F_SEQ_SINGLE, the truncated size, the channel and channel info, and 8 zero header-data bytes (the 16-byte packed header) |
| Hgsmi.WriteBytes | drivers/staging/vboxvideo/vbox_hgsmi.c:86 | the bytes land at the given position and every other byte is unchanged |
| Hgsmi.WriteBuffer | drivers/staging/vboxvideo/vbox_hgsmi.c:80-89 | the region becomes the 16 header bytes ++ untouched data ++ reserved 0 ++ checksum, so the data starts at 16 and the tail at 16 + size |
| Hgsmi.BufferAlloc | drivers/staging/vboxvideo/vbox_hgsmi.c:67-92 | NULL when the pool allocation fails; otherwise the data address 16 bytes into the size + 24 byte region, which holds the 16-byte header, the data and a tail whose checksum covers the offset truncated to u32, the header and reserved |
| Hgsmi.AllocFreeRoundTrip | drivers/staging/vboxvideo/vbox_hgsmi.c:94-102 | freeing the returned pointer (16 bytes back) releases exactly the size + 24 byte region that was allocated, and the stored checksum verifies against the stored tail |
| Gcov.TagForCounter | kernel/gcov/gcc_4_7.c:471-472 | the counter tag of each counter type is a 32-bit value |
| Gcov.ValuesWordsLength | kernel/gcov/gcc_4_7.c:476-479 | each counter value takes two words |
| Gcov.CtrsWordsLength | kernel/gcov/gcc_4_7.c:466-482 | the counter records of a function take 8 + 8*num bytes each, over the active types |
| Gcov.FnsWordsLength | kernel/gcov/gcc_4_7.c:454-483 | each function record takes 20 bytes plus its counter records |
| Gcov.GcdaSize | kernel/gcov/gcc_4_7.c:450-484 | the image is 12 + the sum over functions of (20 + the sum over active counters of (8 + 8*num)) bytes |
| Gcov.StoreU32 | kernel/gcov/gcc_4_7.c:395-405 | returns 4, and writes the word only when the buffer is non-NULL |
| Gcov.StoreU64 | kernel/gcov/gcc_4_7.c:419-431 | returns 8 and writes the low 32 bits, then the high 32 bits, only when the buffer is non-NULL |
| Gcov.U64WordsRoundTrip | kernel/gcov/gcc_4_7.c:426-427 | the two stored halves are 32-bit values that recombine to the 64-bit value |
| Gcov.CounterActive | kernel/gcov/gcc_4_7.c:176-179 | a counter type is active iff it has a merge function, as 0 or 1 |
| Gcov.IsCompatible | kernel/gcov/gcc_4_7.c:225-228 | two data sets are compatible iff their stamps are equal |
| Gcov.CompatibleEquivalence | kernel/gcov/gcc_4_7.c:225-228 | compatibility is reflexive, symmetric and transitive |
| Gcov.ConvertToGcda | kernel/gcov/gcc_4_7.c:440-485 | returns the image's byte count whether the buffer is NULL or not, and with a buffer writes exactly the image words |
| Gcov.EmitFunction | kernel/gcov/gcc_4_7.c:454-483 | writes one function record and its counter records in image order |
| Gcov.EmitCounter | kernel/gcov/gcc_4_7.c:466-482 | writes one counter record in image order |
| Gcov.EmitValues | kernel/gcov/gcc_4_7.c:476-479 | writes the values of one counter in image order |
| Gcov.ResetThenAddCopies | kernel/gcov/gcc_4_7.c:198-261 | adding a source into a reset copy of the same shape gives the source's counters |
| Gcov.SizeKeptByReset | kernel/gcov/gcc_4_7.c:198-216 | reset keeps the size of the image |
| Gcov.GcovInfo.NumCounterActive | kernel/gcov/gcc_4_7.c:182-192 | counts the active counter types |
| Gcov.GcovInfo.Reset | kernel/gcov/gcc_4_7.c:198-216 | zeroes every active counter array and keeps everything else |
| Gcov.GcovInfo.Add | kernel/gcov/gcc_4_7.c:237-261 | adds the source's values into the destination, element by element, modulo 2^64, for the active types only, and keeps everything else |
| Gcov.AddCounters | kernel/gcov/gcc_4_7.c:248-259 | each active counter array becomes the elementwise sum |
| Gcov.AddCounter | kernel/gcov/gcc_4_7.c:255-257 | one counter array becomes the elementwise sum modulo 2^64 |
| Gcov.Chunk | kernel/gcov/gcc_4_7.c:577-581 | from a word-aligned position (every iterator position is a multiple of PAGE_SIZE) a write emits exactly min(PAGE_SIZE, size - pos) bytes, the image's own words starting at pos |
| Gcov.GcovIterator.Next | kernel/gcov/gcc_4_7.c:552-561 | advances pos by PAGE_SIZE while pos < size; returns -EINVAL once pos >= size |
| Gcov.GcovIterator.Write | kernel/gcov/gcc_4_7.c:570-584 | -EINVAL at or past the end, else the chunk at pos |
| Gcov.IterNew | kernel/gcov/gcc_4_7.c:493-515 | NULL iff an allocation fails; otherwise the buffer holds the image, sized by the dry run |
| Gcov.ReadAll | kernel/gcov/gcc_4_7.c:541-584 | start, write and next until the end emit the whole buffer |
| Gcov.UnlinkedContents | kernel/gcov/gcc_4_7.c:147-153 | unlinking removes exactly that entry and keeps the others in order |
| Gcov.LinkThenUnlinkHead | kernel/gcov/gcc_4_7.c:136-153 | linking then unlinking the head with prev = NULL gives the list back |
| Gcov.InfoList.Next | kernel/gcov/gcc_4_7.c:124-130 | from NULL, the first entry; otherwise the entry after this one, or NULL at the end |
| Gcov.InfoList.Link | kernel/gcov/gcc_4_7.c:136-140 | prepends the data set to the list |
| Gcov.InfoList.Unlink | kernel/gcov/gcc_4_7.c:147-153 | removes the entry, through prev's next or the list head |
| FdtGet.Be32 | scripts/dtc-aosp/fdtget.c:65 | a 4-byte cell read big-endian is a 32-bit value |
| FdtGet.CellValue | scripts/dtc-aosp/fdtget.c:65-66 | a 4-byte cell is the big-endian word read as a signed int, a 2-byte cell is (p0<<8)\|p1 and a 1-byte cell is p0 |
| FdtGet.WholeIsMod | scripts/dtc-aosp/fdtget.c:62 | the loop's step-by-size walk covers the data exactly when its length is a multiple of the size |
| FdtGet.CellRoundTrip | scripts/dtc-aosp/fdtget.c:65-66 | a value in a cell's range, encoded big-endian, decodes back to itself |
| FdtGet.CellsRoundTrip | scripts/dtc-aosp/fdtget.c:62-68 | a list of encoded cells decodes back to the list |
| FdtGet.CellItems | scripts/dtc-aosp/fdtget.c:62-68 | n values print as n numbers separated by n-1 single spaces |
| FdtGet.Fmt | scripts/dtc-aosp/fdtget.c:59-61 | the format letter is the display type, or 'd' when none is given |
| FdtGet.ShowCellList | scripts/dtc-aosp/fdtget.c:51-71 | returns 0 and prints the decoded cells of the whole buffer, space-separated, in the chosen format |
| FdtGet.StrLenNul | scripts/dtc-aosp/fdtget.c:101 | strlen stops at a NUL byte inside the terminated data |
| FdtGet.SplitJoin | scripts/dtc-aosp/fdtget.c:101-105 | NUL-free strings joined with terminators are split back into the same strings |
| FdtGet.JoinSplit | scripts/dtc-aosp/fdtget.c:101-105 | terminated data split into strings joins back to the same bytes |
| FdtGet.StringItems | scripts/dtc-aosp/fdtget.c:101-105 | n strings print as n strings separated by n-1 spaces |
| FdtGet.ShowStrings | scripts/dtc-aosp/fdtget.c:101-105 | the loop prints the NUL-separated strings of the data, space-separated |
| FdtGet.CellSize | scripts/dtc-aosp/fdtget.c:108-115 | a default size of -1 becomes 4 when the length is a multiple of 4, else 1; an explicit size that does not divide the length is an error |
| FdtGet.DataOutput | scripts/dtc-aosp/fdtget.c:84-118 | empty data prints nothing and returns 0; strings need a NUL last byte; otherwise cells of the chosen size; an error prints nothing and returns -1 |
| FdtGet.ShowsJoinedStrings | scripts/dtc-aosp/fdtget.c:94-106 | NUL-terminated strings shown as strings print back exactly those strings |
| FdtGet.ShowsEncodedCells | scripts/dtc-aosp/fdtget.c:108-117 | encoded cells of an explicit size print back exactly those values |
| FdtGet.ShowData | scripts/dtc-aosp/fdtget.c:84-118 | show_data returns and prints what DataOutput says |
| FdtGet.PresentNames | scripts/dtc-aosp/fdtget.c:136-138 | only properties whose name is non-NULL are printed, one line each |
| FdtGet.ListProperties | scripts/dtc-aosp/fdtget.c:127-142 | prints the property names; the end of the list returns 0 and any other error is returned |
| FdtGet.DisplayName | scripts/dtc-aosp/fdtget.c:169-170 | the nameless root prints as "/" and any other name as itself |
| FdtGet.Walk | scripts/dtc-aosp/fdtget.c:161-196 | the tag walk returns 0 or 1 |
| FdtGet.WalkListsLevelOne | scripts/dtc-aosp/fdtget.c:166-172 | every name printed is the name of a node at nesting level 1 |
| FdtGet.WalkNoteLast | scripts/dtc-aosp/fdtget.c:174-192 | the too-deep and unknown-tag lines are only ever printed last, and a walk that returns 0 prints only names |
| FdtGet.WalkTooDeep | scripts/dtc-aosp/fdtget.c:174-177 | reaching nesting level 32 aborts with 1 after printing "Nested too deep, aborting." |
| FdtGet.WalkUnknownTag | scripts/dtc-aosp/fdtget.c:189-192 | an unknown tag at level 1 or above it (after the node's properties) ends the walk with 1, printing only "Unknown tag 0x%08X" |
| FdtGet.UpperHexValueMod | scripts/dtc-aosp/fdtget.c:191 | the w zero-padded upper-case digits of "%0wX" denote the number modulo 16^w |
| FdtGet.UnknownTagShows | scripts/dtc-aosp/fdtget.c:191 | the unknown-tag line is "Unknown tag 0x" and eight digits that read back as the u32 tag |
| FdtGet.ListSubnodes | scripts/dtc-aosp/fdtget.c:153-197 | the loop returns and prints what the tag walk says, names and notes alike |
| FdtGet.Lines | scripts/dtc-aosp/fdtget.c:172 | each name or note becomes one output line |
| FdtGet.ItemOutput | scripts/dtc-aosp/fdtget.c:226-237 | a missing property prints the default value with status 0 when there is one, else fails with -1 |
| FdtGet.ShowDataForItem | scripts/dtc-aosp/fdtget.c:209-242 | show_data_for_item returns and prints what ItemOutput says for the mode |
| FdtGet.RunFrom | scripts/dtc-aosp/fdtget.c:264-284 | the run over the argument groups ends with 0 or -1 |
| FdtGet.DoFdtget | scripts/dtc-aosp/fdtget.c:253-287 | an unreadable blob fails with -1 and prints nothing; otherwise it runs the argument groups |
| FdtGet.MissingNode | scripts/dtc-aosp/fdtget.c:265-275 | a path that does not resolve prints the default value and goes on, or fails with -1 when there is no default |
| FdtGet.RunSucceedsIffAll | scripts/dtc-aosp/fdtget.c:264-284 | the run returns 0 iff every argument group succeeds |
| FdtGet.ParseOpts | scripts/dtc-aosp/fdtget.c:324-348 | an invalid type string is a usage error; otherwise the mode is show-value exactly when two arguments make a step |
| FdtGet.ParseOptsStep | scripts/dtc-aosp/fdtget.c:334-342 | args_per_step becomes 1 exactly when -p or -l was given |
| FdtGet.FdtgetMain | scripts/dtc-aosp/fdtget.c:313-369 | usage errors for a bad type, a missing filename and an odd count of value arguments; no arguments succeed; otherwise exit status 1 iff do_fdtget fails |
| Evmcs.Rol16By6 | arch/x86/kvm/vmx_evmcs.h:7 | ROL16 by 6 swaps bits 15:10 down to 5:0 and bits 9:0 up to 15:6 |
| Evmcs.IndexInverse | arch/x86/kvm/vmx_evmcs.h:7 | ROL16(ROL16(v,6),10) gives v truncated to 16 bits back, so the index is a bijection on 16-bit encodings |
| Evmcs.MaxIndex | arch/x86/kvm/vmx_evmcs.h:9-10 | the designated-initializer array is as long as the largest named index plus one: every entry's index is at most it and some entry reaches it |
| Evmcs.SlotOfEntry | arch/x86/kvm/vmx_evmcs.h:9-10 | an EVMCS1_FIELD initializer not overridden later fills slot ROL16(number,6) with its offset and clean field |
| Evmcs.SlotUnnamed | arch/x86/kvm/vmx_evmcs.h:17 | a slot no initializer names is zero (offset 0, clean field NONE) |
| Evmcs.GetEvmcsOffset | arch/x86/kvm/vmx_evmcs.h:305-319 | -ENOENT exactly when ROL16(field,6) is past the array; otherwise the stored offset, and the clean field is written iff the pointer is non-NULL |
| Evmcs.LookupListed | arch/x86/kvm/vmx_evmcs.h:305-319 | looking up a listed field returns its own offset and clean field |
| Evmcs.LookupUnlisted | arch/x86/kvm/vmx_evmcs.h:305-319 | a field past the largest index gets -ENOENT; an unnamed field below it reads offset 0 and clean field NONE |
| Evmcs.ReadOnlyEntryClean | arch/x86/kvm/vmx_evmcs.h:128-251 | every read-only initializer (64-bit at lines 128-146, 32-bit at lines 235-251) has field type 1 (VM-exit information) and clean field NONE |
| Evmcs.ReadOnlyLookup | arch/x86/kvm/vmx_evmcs.h:128-251 | each read-only field (lines 128-146 and 235-251) has a slot of its own, and get_evmcs_offset hands back its offset with CLEAN_FIELD_NONE |
| GicV3.FieldOfPlaced | include/linux/irqchip/arm-gic-v3.h:85-87 | a value written into a bit field reads back through `(x >> s) & mask` whatever the other bits hold |
| GicV3.TyperIdBits | include/linux/irqchip/arm-gic-v3.h:85 | GICD_TYPER_ID_BITS is bits 23:19 plus one, so it lies in [1,32] |
| GicV3.TyperNumLpis | include/linux/irqchip/arm-gic-v3.h:86 | GICD_TYPER_NUM_LPIS is bits 15:11 plus one, in [1,32] |
| GicV3.TyperIrqs | include/linux/irqchip/arm-gic-v3.h:87 | GICD_TYPER_IRQS is a multiple of 32 in [32,1024] given by bits 4:0 |
| GicV3.TyperIrqsOnto | include/linux/irqchip/arm-gic-v3.h:87 | every multiple of 32 from 32 to 1024 is reported by some GICD_TYPER value |
| GicV3.ItsTyperIttEntrySize | include/linux/irqchip/arm-gic-v3.h:322 | GITS_TYPER_ITT_ENTRY_SIZE is bits 7:4 plus one, in [1,16] |
| GicV3.ItsTyperDevBits | include/linux/irqchip/arm-gic-v3.h:325 | GITS_TYPER_DEVBITS is bits 17:13 plus one, in [1,32] |
| GicV3.ItsTyperHcc | include/linux/irqchip/arm-gic-v3.h:328 | GITS_TYPER_HCC is an 8-bit field |
| GicV3.BaserType | include/linux/irqchip/arm-gic-v3.h:385 | GITS_BASER_TYPE is a 3-bit field |
| GicV3.BaserEntrySize | include/linux/irqchip/arm-gic-v3.h:387 | GITS_BASER_ENTRY_SIZE is bits 52:48 plus one, in [1,32] |
| GicV3.BaserNrPages | include/linux/irqchip/arm-gic-v3.h:399-401 | GITS_BASER_NR_PAGES is bits 7:0 plus one, in [1, GITS_BASER_PAGES_MAX] |
| GicV3.EncodeSz | include/linux/irqchip/arm-gic-v3.h:149 | GIC_ENCODE_SZ fits in w bits |
| GicV3.EncodeSzRoundTrip | include/linux/irqchip/arm-gic-v3.h:149 | for 1 <= n <= 2^w the encoded field plus one is n; n = 0 wraps to the all-ones field |
| GicV3.BaserEntrySizeRoundTrip | include/linux/irqchip/arm-gic-v3.h:387 | an entry size encoded with GIC_ENCODE_SZ(n, 5) at bit 48 decodes back to n through GITS_BASER_ENTRY_SIZE |
| GicV3.TyperIdBitsRoundTrip | include/linux/irqchip/arm-gic-v3.h:85 | the same round trip for GICD_TYPER_ID_BITS at bit 19 |
| GicV3.Phys52To48 | include/linux/irqchip/arm-gic-v3.h:389-390 | GITS_BASER_PHYS_52_to_48 keeps bits 47:16, moves bits 51:48 to 15:12, and leaves bits 11:0 clear and nothing above bit 47 |
| GicV3.PhysRoundTrip | include/linux/irqchip/arm-gic-v3.h:389-390 | a 64K-aligned address below 2^52 is recovered from the packed field |
| GicV3.CmdGicV4 | include/linux/irqchip/arm-gic-v3.h:433 | GITS_CMD_GICv4 sets bit 5 and keeps every other bit |
| GicV3.CodesDistinct | include/linux/irqchip/arm-gic-v3.h:417-440 | no two ITS commands share a number, and exactly the GICv4 ones have bit 5 set |
| GicV3.SreRegister.EnableSre | include/linux/irqchip/arm-gic-v3.h:603-616 | returns true without a write when SRE is already set; otherwise writes the value with SRE set once and returns the bit read back, which is set unless the bit ignores writes |
| DsiDefs.HTotal | techpack/display/msm/dsi/dsi_defs.h:13-14 | DSI_H_TOTAL is the sum of active width, back porch, sync width and front porch, reduced modulo 2^32 by the u32 arithmetic |
| DsiDefs.VTotal | techpack/display/msm/dsi/dsi_defs.h:16-17 | DSI_V_TOTAL is the same sum of the vertical members, modulo 2^32 |
| DsiDefs.HActiveDsc | techpack/display/msm/dsi/dsi_defs.h:31-39 | pclk_per_line exactly when dsc_enabled and dsc is non-NULL, h_active otherwise |
| DsiDefs.HTotalDscExact | techpack/display/msm/dsi/dsi_defs.h:19-29 | the u64 accumulator never wraps, so DSI_H_TOTAL_DSC is the exact sum, and the plain horizontal sum when DSC is off |
| DsiDefs.HTotalDscAgrees | techpack/display/msm/dsi/dsi_defs.h:13-29 | without DSC the two totals agree exactly when the horizontal sum is below 2^32 |
| DsiDefs.HTotalWraps | techpack/display/msm/dsi/dsi_defs.h:13-29 | a mode with h_active 0xffffffff and back porch 1 has DSI_H_TOTAL 0 but DSI_H_TOTAL_DSC 2^32 |
| DsiDefs.RectIsEqual | techpack/display/msm/dsi/dsi_defs.h:1097-1102 | dsi_rect_is_equal holds iff the two rectangles are equal |
| DsiDefs.BppIsComponentSum | techpack/display/msm/dsi/dsi_defs.h:1145-1164 | the bits per pixel of each format (RGB888 and MAX 24, RGB666 and loose 18, RGB565 16, RGB111 3, RGB332 8, RGB444 12) is the sum of its component widths |
| DsiDefs.LaneBits | techpack/display/msm/dsi/dsi_defs.h:121-147 | each lane bit is BIT of its logical index, the bits are distinct and fill 0x1f |
| DsiDefs.ClockBits | techpack/display/msm/dsi/dsi_defs.h:721-727 | DSI_CLK_ALL is the or of the pixel, byte and PHY clocks, and DSI_CLK_NONE shares no bit with it |
| LedsKtd2692.CDiv | include/linux/leds-ktd2692.h:29-30 | C int division truncates toward zero |
| LedsKtd2692.Code | include/linux/leds-ktd2692.h:31-32 | a positive calibration is masked to five bits; zero or negative gives 0; below 32 the value is kept |
| LedsKtd2692.FlashCurrent | include/linux/leds-ktd2692.h:29-31 | KTD2692_FLASH_CURRENT is a 5-bit code |
| LedsKtd2692.VideoCurrent | include/linux/leds-ktd2692.h:30-32 | KTD2692_VIDEO_CURRENT is a 5-bit code |
| LedsKtd2692.RoundHalfUp | include/linux/leds-ktd2692.h:29-30 | dividing at one decimal place, adding 5 and dividing by 10 rounds y / max half up to the nearest integer |
| LedsKtd2692.CalRounds | include/linux/leds-ktd2692.h:29-30 | for a non-negative current, CAL + 1 is factor·mA/max rounded to nearest (factor 16 for flash, 48 for video) |
| LedsKtd2692.CalMonotone | include/linux/leds-ktd2692.h:29-30 | the calibration is non-decreasing in the current |
| LedsKtd2692.CodeMonotone | include/linux/leds-ktd2692.h:29-32 | the flash and video codes grow with the current while the calibration fits the 5-bit mask |
| LedsKtd2692.VideoCodeWraps | include/linux/leds-ktd2692.h:30-32 | past that point the mask wraps: against 1500 mA, 1000 mA gives video code 31 and 1020 mA gives 0 |
| LedsKtd2692.CodeEndpoints | include/linux/leds-ktd2692.h:29-32 | zero current gives code 0; the maximum gives flash code 15 and video code 47 masked to 15 |
| LedsKtd2692.TorchLinear | include/linux/leds-ktd2692.h:34 | KTD2692_TORCH_STEP_LEVEL_CURRENT is additive and monotone in the level, with a step of at least 1 |
| LedsKtd2692.DefaultCurrents | include/linux/leds-ktd2692.h:22-25 | the default flash, video and factory currents are at most KTD2692_MAX_CURRENT and give codes 12, 5 and 7 |
| LedsS2mpb02.LvSelVolt | include/linux/leds-s2mpb02.h:24-27 | 0 up to 2700 mV, (mV-2700)/100 up to 3400 mV, 7 beyond, so always within S2MPB02_LV_SEL_VOUT_MASK |
| LedsS2mpb02.LvSelMonotone | include/linux/leds-s2mpb02.h:25-27 | the code is non-decreasing in the voltage |
| LedsS2mpb02.LvSelRoundTrip | include/linux/leds-s2mpb02.h:25-27 | code k's voltage 2700+100k converts back to k; a voltage gets the largest code whose voltage does not exceed it |
| LedsS2mpb02.CurrentMasksSplitByte | include/linux/leds-s2mpb02.h:29-30 | FLASH_MASK and TORCH_MASK are disjoint and together cover the byte |
| LedsS2mpb02.PackCurrents | include/linux/leds-s2mpb02.h:20-30 | flash and torch currents up to 0xF placed in their nibbles read back unchanged |
| LedsS2mpb02.EnableModeBits | include/linux/leds-s2mpb02.h:34-45 | ENABLE_MODE_MASK 0xC0 consists exactly of the enable bit 7 and the mode bit 6 |
| LedsS2mpb02.EnableMode | include/linux/leds-s2mpb02.h:32-45 | enable << 7 | mode << 6 stays inside the mask and its two bits read back as enable and mode |
| Zdata.PclusterPages | fs/erofs/zdata.h:114-124 | an inline pcluster (object index 0) occupies one page; any other reports its pclusterpages member |
| Zdata.LayoutRoundTrip | fs/erofs/zdata.h:126-150 | a sub-index and a count below 4 packed as index << 2 | count read back through the count mask and z_erofs_onlinepage_index |
| Zdata.OrLow | fs/erofs/zdata.h:180-181 | (index << 2) | low is their sum when low is below 4 |
| Zdata.FixupValue | fs/erofs/zdata.h:165-185 | a pass declines to write exactly when a sub-index is already stored and none is requested; otherwise it stores a 32-bit int |
| Zdata.FixupLayout | fs/erofs/zdata.h:165-185 | when the count does not overflow and the index fits, the stored word holds the requested index and the count plus down |
| Zdata.FixupCountCarries | fs/erofs/zdata.h:180-181 | a count of 3 raised by down carries into the sub-index (index 2 becomes 3, count 0) |
| Zdata.Page.OnlinePageInit | fs/erofs/zdata.h:152-163 | the word becomes 1 (count 1, sub-index 0) and the page is private; nothing else changes |
| Zdata.Page.OnlinePageIndex | fs/erofs/zdata.h:142-150 | returns the word shifted right by two, as unsigned int |
| Zdata.Page.OnlinePageFixup | fs/erofs/zdata.h:165-185 | every failed pass meant to write and lost its compare-and-exchange to a racing store; the last pass either returned without writing or stored the fixed-up value of the word it read |
| Zdata.FixupAlone | fs/erofs/zdata.h:165-185 | with no racing CPU the word becomes the fixed-up value of the old word, or stays when fixup declines |
| Zdata.Page.OnlinePageEndio | fs/erofs/zdata.h:187-204 | decrements the word; when the count bits reach zero the word is cleared, the page stops being private, becomes up to date unless it has an error, and is unlocked |
| Zdata.EndioUnlocksOnLast | fs/erofs/zdata.h:187-204 | a word with count c reaches zero count bits at the c-th endio and not before |
| Zdata.Page.AttachPagePrivate | fs/erofs/zdata.h:218-223 | takes a page reference, stores the data and sets PG_private |
| Zdata.Page.DetachPagePrivate | fs/erofs/zdata.h:234-245 | returns NULL and changes nothing for a non-private page; otherwise returns the attached data, clears the word and PG_private and drops the reference |
| KgslMemfree.Memfree.constructor | drivers/gpu/msm/kgsl.c:5648-5649 | the ring starts with head = tail = 0 over zeroed slots, or without a list when the allocation failed |
| KgslMemfree.Memfree.Add | drivers/gpu/msm/kgsl.c:190-215 | no-op without a list; otherwise the record lands at the old head, head advances modulo 512, tail advances only when head reaches it, so head ≠ tail afterwards and the next walk starts at the new record |
| KgslMemfree.Memfree.FindEntry | drivers/gpu/msm/kgsl.c:110-154 | the walk as written: the result is the first matching entry among slots head−1 down to tail+1 (newest first), and not-found means none of those slots matches (u64 wrap in the range end kept) |
| KgslMemfree.FindSkipsTail | drivers/gpu/msm/kgsl.c:128-133 | the walk covers one slot fewer than the ring holds: the slot at tail, the oldest record, is never examined |
| KgslMemfree.FirstFreeMissed | drivers/gpu/msm/kgsl.c:128-133 | after one free on a fresh ring the walk visits nothing |
| KgslMemfree.Memfree.FindEntryLive | drivers/gpu/msm/kgsl.c:110-154 | the corrected walk: first match among all live slots head−1 down to tail, or none matches |
| KgslMemfree.Memfree.Purge | drivers/gpu/msm/kgsl.c:156-188 | every slot becomes the (corrected) per-entry trim of its old value; without a list nothing changes |
| KgslMemfree.PurgeEntry | drivers/gpu/msm/kgsl.c:168-186 | entries of other pagetables and empty entries are returned unchanged; pid, pagetable and flags are never touched |
| KgslMemfree.PurgeGrowsEntry | drivers/gpu/msm/kgsl.c:179-181 | as written, truncating the start of [0x1000,0x3000) by a free of [0x1000,0x2000) yields an entry matching 0x3800, an address never freed |
| KgslMemfree.PurgeFixedShrinks | drivers/gpu/msm/kgsl.c:168-186 | corrected trim: the entry only loses addresses, and loses every freed address it had |
| Kgsl.ProcessCommandInput | drivers/gpu/msm/kgsl.c:2062-2096 | over-limit counts give 0; MARKER flag gives MARKER; SYNC flag gives SYNC |
| Kgsl.CommandTypeDeduced | drivers/gpu/msm/kgsl.c:2085-2095 | within the limits the result is never 0; without flags CMD iff commands, SYNC iff syncpoints, MARKER iff neither; MARKER is never combined |
| Kgsl.SparseAllocParamSanityCheck | drivers/gpu/msm/kgsl.c:3865-3878 | result is 0 or -EINVAL |
| Kgsl.SparseSizeIsPages | drivers/gpu/msm/kgsl.c:3865-3878 | accepted iff pagesize is 4K or 64K and size is a positive whole number of pages |
| Kgsl.ConflictIsOverlap | drivers/gpu/msm/kgsl.c:4117-4126 | for non-empty objects, the descent's stop condition is exactly overlap of the ranges |
| Kgsl.InsertCorrect | drivers/gpu/msm/kgsl.c:4113-4137 | in an ordered tree the path-only search fails iff some object conflicts; on success exactly the new object is added and the tree stays ordered |
| Kgsl.MemEntry.SparseAddToBindTree | drivers/gpu/msm/kgsl.c:4093-4138 | -ENOMEM leaves the tree; the descent returns -EADDRINUSE with the tree unchanged or 0 with the object linked where the descent ends |
| Kgsl.EraseCorrect | drivers/gpu/msm/kgsl.c:4144-4150 | removing a node takes exactly that object out and keeps the tree ordered |
| Kgsl.ReplaceCorrect | drivers/gpu/msm/kgsl.c:4151-4163 | narrowing an object in place replaces just it and keeps the tree ordered |
| Kgsl.PiecesCorrect | drivers/gpu/msm/kgsl.c:4140-4186 | what is left of the object covers exactly its addresses outside the removed range, each piece within it and keeping the virtual-to-physical offset |
| Kgsl.SplitTailFits | drivers/gpu/msm/kgsl.c:4164-4182 | the tail added by a split never conflicts, so a split fails only by allocation |
| Kgsl.MemEntry.SparseRmFromBindTree | drivers/gpu/msm/kgsl.c:4140-4186 | the tree stays ordered and holds the old objects with obj replaced by its remaining pieces; on -ENOMEM (split only) the tail piece is lost |
| Kgsl.CleanStringCorrect | drivers/gpu/msm/kgsl.c:3731-3735 | cleaned bytes before the first NUL are printable, NUL positions are kept, bytes from the first NUL on are untouched, cleaning is idempotent |
| Kgsl.MemEntry.CleanMetadata | drivers/gpu/msm/kgsl.c:3731-3735 | the loop leaves the first size bytes cleaned and the rest of the buffer unchanged |
| Kgsl.MemEntry.CopyMetadata | drivers/gpu/msm/kgsl.c:3716-3736 | len 0 changes nothing; a failed copy zeroes the buffer; otherwise the first min(len, sizeof−1) bytes are the cleaned user bytes and the rest is unchanged |
| Kgsl.MemEntry.SetPend | drivers/gpu/msm/kgsl.c:1590-1603 | returns true iff the flag was clear; the flag is set afterwards |
| Kgsl.MemEntry.UnsetPend | drivers/gpu/msm/kgsl.c:1544-1551 | the flag is clear afterwards |
| Kgsl.SelectCacheOp | drivers/gpu/msm/kgsl.c:3352-3362 | no op iff neither clean nor inv is requested |
| Kgsl.CacheOpMatchesRequest | drivers/gpu/msm/kgsl.c:3352-3362 | the selected op cleans iff clean was asked and invalidates iff inv was asked |
| Kgsl.GpumemSyncCache | drivers/gpu/msm/kgsl.c:3336-3381 | NULL or secure entries return 0; no op bits give -EINVAL; a cache operation runs only on cached memory, with the selected op, over the given range or the whole entry without the RANGE flag |
| Kgsl.SyncReachesCache | drivers/gpu/msm/kgsl.c:3364-3378 | a valid request on non-secure write-through or write-back memory always reaches kgsl_cache_range_op |
| Kgsl.FilterCachemode | drivers/gpu/msm/kgsl.c:3606-3627 | other bits kept; on arm64 the result is never write-through, and the only change is write-through to write-back |
| Kgsl.FilterCachemodeIdempotent | drivers/gpu/msm/kgsl.c:3606-3627 | filtering twice equals filtering once |
| Kgsl.CheckVmaFlags | drivers/gpu/msm/kgsl.c:2583-2595 | 0 iff the vma is readable and, unless GPU read-only, writable; otherwise -EFAULT |
| Schedutil.SugovPolicy.constructor | kernel/sched/cpufreq_schedutil.c:1500-1509 | delays are the tunables' microseconds times 1000, the minimum limit is the lesser delay, no frequency and no pending change |
| Schedutil.SugovPolicy.ShouldUpdateFreq | kernel/sched/cpufreq_schedutil.c:121-157 | false for a CPU that cannot update; a pending limits change is cleared, forces need_freq_update and gives true; otherwise true iff the s64 delta reaches min_rate_limit_ns |
| Schedutil.SugovPolicy.UpdateNextFreq | kernel/sched/cpufreq_schedutil.c:186-199 | true iff the frequency differs and its direction is not rate-limited; then next_freq and the update time are set, otherwise nothing changes |
| Schedutil.RateLimitLapses | kernel/sched/cpufreq_schedutil.c:168-184 | an unchanged frequency is never limited, and nothing is once both delays have passed |
| Schedutil.MinRateLimitIsFirstDeadline | kernel/sched/cpufreq_schedutil.c:150-184 | with min_rate_limit_ns the lesser delay, a delta below it limits every change |
| Schedutil.SugovPolicy.UpdateMinRateLimitNs | kernel/sched/cpufreq_schedutil.c:990-996 | min_rate_limit_ns becomes min(up delay, down delay) |
| Schedutil.SugovTunables.UpRateLimitStore | kernel/sched/cpufreq_schedutil.c:1012-1033 | booster tasks are ignored, bad text gives -EINVAL; otherwise every sharing policy gets the new up delay in ns and min = min(up, down), other policy state untouched |
| Schedutil.SugovTunables.DownRateLimitStore | kernel/sched/cpufreq_schedutil.c:1035-1056 | the same for the down delay |
| Schedutil.SugovTunables.HispeedLoadStore | kernel/sched/cpufreq_schedutil.c:1068-1079 | bad text gives -EINVAL and no change; otherwise the load is min(100, value) |
| Schedutil.HispeedLoadText | kernel/sched/cpufreq_schedutil.c:1065 | the shown text is decimal digits that read back as the load, then a newline |
| Schedutil.SugovTunables.HispeedLoadShow | kernel/sched/cpufreq_schedutil.c:1061-1066 | shows the current load as HispeedLoadText |
| Schedutil.HispeedLoadRoundTrip | kernel/sched/cpufreq_schedutil.c:1061-1079 | after any store the load is a percentage, and writing back the number it shows stores the same load |
| Schedutil.SugovCpu.constructor | kernel/sched/cpufreq_schedutil.c:1549-1551 | boost state zeroed; min is min_freq in capacity units, at most 1024 |
| Schedutil.SugovCpu.IowaitReset | kernel/sched/cpufreq_schedutil.c:561-574 | true iff more than a tick has passed; then boost is min (IO requested) or 0 and pending mirrors the request, otherwise nothing changes |
| Schedutil.SugovCpu.IowaitBoost | kernel/sched/cpufreq_schedutil.c:589-617 | idle reset first; without IO or with a boost pending nothing changes; else pending is set and the boost starts at min or doubles, capped at 1024 (u32 shift kept) |
| Schedutil.BoostDoubles | kernel/sched/cpufreq_schedutil.c:589-617 | after k+1 successive IO wakeups the boost is min·2^k capped at SCHED_CAPACITY_SCALE |
| Schedutil.SugovCpu.IowaitApply | kernel/sched/cpufreq_schedutil.c:638-670 | never below util; no boost or idle reset gives util; an unrenewed boost is halved and dropped below min; pending is cleared and util raised to the scaled boost |
| Schedutil.BoostedBounded | kernel/sched/cpufreq_schedutil.c:668 | a boost at most 1024 scaled by max never exceeds max |
| Schedutil.MultFracExact | kernel/sched/cpufreq_schedutil.c:201-205 | mult_frac(x, n, d) is exactly ⌊x·n/d⌋ |
| Schedutil.FreqToUtilBounded | kernel/sched/cpufreq_schedutil.c:201-205 | freq_to_util is monotone in the frequency and at most the capacity for frequencies up to max_freq |
| Schedutil.SchedutilCpuUtil | kernel/sched/cpufreq_schedutil.c:415-499 | never above max; max when RT runs without uclamp, when irq ≥ max, or when (clamped) util + dl ≥ max |
| Schedutil.CpuUtilCoversIrq | kernel/sched/cpufreq_schedutil.c:482-483 | below IRQ saturation the result is at least the IRQ utilisation |
| Schedutil.EnergyUtilMonotone | kernel/sched/cpufreq_schedutil.c:415-499 | for ENERGY_UTIL the result never decreases as CFS utilisation grows |
| ArchTopology.Topology.constructor | drivers/base/arch_topology.c:26-28 | freq_scale, max_freq_scale and cpu_scale start at 1024, max_cpu_freq and capacity_scale at 0, no raw capacities |
| ArchTopology.FreqScaleBounds | drivers/base/arch_topology.c:36 | for cur ≤ max the frequency scale lies in 0..1024, grows with cur and is exactly 1024 at max |
| ArchTopology.Topology.ArchSetFreqScale | drivers/base/arch_topology.c:30-42 | each CPU in the mask, and no other, gets freq_scale = (cur << 10)/max and max_cpu_freq = max |
| ArchTopology.EmptyMaskPassesGuard | drivers/base/arch_topology.c:47-53 | for an empty mask cpumask_first is nr_cpu_ids, and `cpu > nr_cpu_ids` does not return, so a CPU that does not exist is read |
| ArchTopology.MaxFreqGuardSound | drivers/base/arch_topology.c:47-51 | past `cpu >= nr_cpu_ids` the first CPU is a valid member of the mask; the guard stops exactly the empty mask |
| ArchTopology.Topology.ArchSetMaxFreqScale | drivers/base/arch_topology.c:44-61 | no change for an empty mask or a first CPU with max_cpu_freq 0; otherwise every CPU in the mask gets (policy_max << 10)/max_cpu_freq[first] |
| ArchTopology.Topology.SetCpuScale | drivers/base/arch_topology.c:66-69 | only that CPU's cpu_scale changes |
| ArchTopology.Topology.CpuCapacityShow | drivers/base/arch_topology.c:113-134 | the CPU's cpu_scale, except that with CONFIG_CPU_CAPACITY_FIXUP a task whose name matches the fixup target is shown max(cpu_scale[0], cpu_scale[last]) for a CPU whose capacity is neither end, so it only ever sees the first or last CPU's capacity |
| ArchTopology.Topology.CpuCapacityStore | drivers/base/arch_topology.c:139-167 | count 0 returns 0; -EINVAL or -ERANGE from the parse, -EINVAL above 1024, all without effect; otherwise every core sibling gets the value, the topology work is queued and count is returned |
| ArchTopology.Topology.FreeRawCapacity | drivers/base/arch_topology.c:219-225 | raw_capacity becomes NULL, nothing else changes |
| ArchTopology.Topology.NormalizeCpuScale | drivers/base/arch_topology.c:227-247 | without raw capacities nothing changes; otherwise each CPU's capacity is (raw << 10 in u32)/capacity_scale |
| ArchTopology.NormCapBounds | drivers/base/arch_topology.c:238-239 | a raw value at most capacity_scale normalises to at most 1024, and one equal to a scale below 2^22 to exactly 1024 |
| ArchTopology.NormCapWraps | drivers/base/arch_topology.c:238-239 | the u32 shift wraps: raw = capacity_scale = 2^22 normalises to 0 |
| ArchTopology.NormalizedCapacitiesBounded | drivers/base/arch_topology.c:227-247 | with capacity_scale bounding every raw value, all capacities are at most 1024 and the CPUs at the scale get 1024 |
| ArchTopology.Topology.ParseCpuCapacity | drivers/base/arch_topology.c:249-286 | after a failure every call returns false; a present value is stored and capacity_scale becomes max(value, scale); a missing value or failed allocation latches the failure and frees raw_capacity; capacity_scale stays at least every raw value |
| ArchTopology.Topology.RegisterCpufreqNotifier | drivers/base/arch_topology.c:334-360 | -EINVAL unless ACPI is off and raw capacities exist, -ENOMEM on mask allocation failure, otherwise every possible CPU is to be visited |
| ArchTopology.Topology.InitCpuCapacityCallback | drivers/base/arch_topology.c:293-328 | no effect without raw capacities or for other events; the policy's CPUs leave cpus_to_visit and get raw = cpu_scale·max_freq/1000, capacity_scale stays their running maximum; once none are left capacities are normalised, raw freed and both works queued |
| DamonLruSort.LruSort.constructor | mm/damon/lru_sort.c:32-135 | the load-time parameters: disabled, 500‰ hot frequency, 120 s cold age, 10 ms quota per 1 s, 5 ms/100 ms intervals, no region, kdamond_pid -1 |
| DamonLruSort.HotThres | mm/damon/lru_sort.c:240-242 | hot_thres fits an unsigned int |
| DamonLruSort.HotThresExact | mm/damon/lru_sort.c:240-242 | without wrap-around hot_thres is ⌊(aggr/sample)·freq/1000⌋, evaluated left to right |
| DamonLruSort.HotThresBounded | mm/damon/lru_sort.c:239-242 | for a frequency up to 1000‰ the threshold grows with it and never exceeds aggr_interval/sample_interval, the most accesses a region can show |
| DamonLruSort.PermilBounds | mm/damon/lru_sort.c:240-242 | a permil share of m rounded down grows with the share and stays within m |
| DamonLruSort.DefaultThresholds | mm/damon/lru_sort.c:240-250 | the defaults give hot_thres 10 and cold_thres 1200 |
| DamonLruSort.ColdThres | mm/damon/lru_sort.c:250 | cold_thres fits an unsigned int |
| DamonLruSort.HotSchemeTargets | mm/damon/lru_sort.c:152-187 | a region matches the hot scheme iff it is at least a page and has at least hot_thres accesses, at any age; action LRU_PRIO within half of quota_ms |
| DamonLruSort.ColdSchemeTargets | mm/damon/lru_sort.c:190-226 | a region matches the cold scheme iff it is at least a page, unaccessed and at least cold_thres old; action LRU_DEPRIO within half of quota_ms |
| DamonLruSort.SchemesDisjoint | mm/damon/lru_sort.c:152-226 | with hot_thres > 0 no region matches both schemes, and the two quotas together stay within quota_ms |
| DamonLruSort.LruSort.ApplyParameters | mm/damon/lru_sort.c:228-265 | each failing step returns its error (a damon_set_schemes error leaves the schemes as they were); success installs the attributes, exactly [hot, cold] schemes and the one region; start > end, or no region and no System RAM, is -EINVAL; an unset region becomes the biggest System RAM |
| DamonLruSort.LruSort.Turn | mm/damon/lru_sort.c:267-287 | off returns the stop result and sets kdamond_pid to -1 only on success; on applies and starts, recording the pid only on success |
| DamonLruSort.LruSort.TimerFn | mm/damon/lru_sort.c:290-302 | nothing happens when enabled equals last_enabled; otherwise a successful turn updates last_enabled and a failed one reverts enabled, so they always agree afterwards |
| DamonLruSort.LruSort.EnabledStore | mm/damon/lru_sort.c:307-321 | a rejected value returns -EINVAL with no effect; otherwise enabled takes it and the timer is queued once initialised |
| DamonLruSort.LruSort.HandleCommitInputs | mm/damon/lru_sort.c:332-342 | returns 0 with no effect when commit_inputs is off; otherwise reapplies the parameters and clears the flag whatever the result |
| DamonLruSort.LastStatForIsLast | mm/damon/lru_sort.c:348-353 | the published statistics are those of a scheme with the action that no later scheme shares, and the previous value only when no scheme has it |
| DamonLruSort.LruSort.AfterAggregation | mm/damon/lru_sort.c:344-357 | the hot and cold statistics become those of the last LRU_PRIO and LRU_DEPRIO schemes, then pending inputs are committed |
| DamonLruSort.LruSort.Init | mm/damon/lru_sort.c:364-389 | -ENOMEM or -EINVAL at the first failing step; on success the timer is queued and the module initialised |
| F2fsSysfs.CStringPrefix | fs/f2fs/sysfs.c:819 | the text a store sees is the longest NUL-free prefix of the buffer |
| F2fsSysfs.SkipSpacesShape | fs/f2fs/sysfs.c:909 | skip_spaces drops exactly the leading white space |
| F2fsSysfs.TrimEndShape | fs/f2fs/sysfs.c:819 | the trailing white space, and only that, is dropped |
| F2fsSysfs.StrimShape | fs/f2fs/sysfs.c:819 | strim keeps one contiguous slice, not starting or ending in white space, and drops only white space around it |
| F2fsSysfs.StrimIdempotent | fs/f2fs/sysfs.c:819 | trimming a trimmed text changes nothing |
| F2fsSysfs.ParseExtension | fs/f2fs/sysfs.c:818-837 | an accepted extension_list text starts with "[h]" or "[c]" (giving hot) and names 1 to F2FS_EXTENSION_LEN-1 characters |
| F2fsSysfs.ExtensionRoundTrip | fs/f2fs/sysfs.c:818-837 | every well-formed request written as "[h]"/"[c]", optional "!", name parses back to itself |
| F2fsSysfs.ExtensionRejects | fs/f2fs/sysfs.c:822-837 | a text without either prefix, with an overlong name or with no name is rejected |
| F2fsSysfs.SbInfo.ExtensionListStore | fs/f2fs/sysfs.c:818-850 | -EINVAL without any update for a malformed text; otherwise one update, undone when the superblock commit fails; the first error or count is returned |
| F2fsSysfs.IoprioRoundTrip | fs/f2fs/sysfs.c:764-765 | IOPRIO_PRIO_CLASS and IOPRIO_PRIO_DATA recover what IOPRIO_PRIO_VALUE packed |
| F2fsSysfs.IoprioPrefixClass | fs/f2fs/sysfs.c:880-885 | only "rt," and "be," select a class, RT and BE respectively |
| Wrappers.DecimalValue | fs/f2fs/sysfs.c:774 | the decimal text printed for the priority level denotes that level |
| F2fsSysfs.IoprioShow | fs/f2fs/sysfs.c:761-776 | a shown value starts with the prefix of its class; any other class is -EINVAL |
| F2fsSysfs.IoprioShowRoundTrip | fs/f2fs/sysfs.c:761-776 | a priority the store accepts is shown back with the same prefix and the same level |
| F2fsSysfs.SbInfo.CkptThreadIoprioStore | fs/f2fs/sysfs.c:875-905 | -EINVAL for a bad prefix or a level outside 0..IOPRIO_BE_NR-1, kstrtol's error as is, all without change; otherwise the packed priority is stored and, under merged checkpointing, the thread's error returned |
| F2fsSysfs.SbInfo.CkptThreadIoprioShow | fs/f2fs/sysfs.c:761-776 | prints the class prefix and the level, as IoprioShow states |
| F2fsSysfs.GcUrgentMode | fs/f2fs/sysfs.c:953-970 | exactly 0, 1 and 2 are accepted, each naming a valid GC mode |
| F2fsSysfs.SbInfo.GcUrgentStore | fs/f2fs/sysfs.c:953-970 | 0, 1, 2 select GC_NORMAL, GC_URGENT_HIGH (waking a present GC thread), GC_URGENT_LOW; anything else is -EINVAL with gc_mode unchanged |
| F2fsSysfs.GcIdleModeAsWritten | fs/f2fs/sysfs.c:971-984 | the code as written: rejected exactly when 3 is asked for without ATGC |
| F2fsSysfs.GcIdleAtSelectsGreedy | fs/f2fs/sysfs.c:979 | as written, asking for the ATGC idle mode stores the value of GC_IDLE_GREEDY |
| F2fsSysfs.GcIdleMode | fs/f2fs/sysfs.c:971-984 | 1..3 select the idle mode of that number (3 only with ATGC enabled, else rejected); any other value selects GC_NORMAL |
| F2fsSysfs.GcIdleAsWrittenDiffers | fs/f2fs/sysfs.c:971-984 | the written and the intended gc_idle differ only for 3 with ATGC enabled |
| F2fsSysfs.SbInfo.GcIdleStore | fs/f2fs/sysfs.c:971-984 | gc_mode becomes GcIdleMode's choice, or -EINVAL with nothing changed |
| F2fsSysfs.ReservedLimit | fs/f2fs/sysfs.c:920-923 | the reserved_blocks limit is a block_t value |
| F2fsSysfs.ReservedLimitExact | fs/f2fs/sysfs.c:920-923 | when the reservations fit, the limit is exactly the user blocks left after them |
| F2fsSysfs.SbInfo.ReservedBlocksStore | fs/f2fs/sysfs.c:918-932 | above the limit -EINVAL with nothing changed; otherwise reserved_blocks is t and current_reserved_blocks the lesser of it and the free user blocks |
| F2fsSysfs.SbInfo.DiscardGranularityStore | fs/f2fs/sysfs.c:934-943 | accepted exactly for 1..MAX_PLIST_NUM with block-unit discard, then stored; otherwise -EINVAL with nothing changed |
| F2fsSysfs.SbInfo.MigrationGranularityStore | fs/f2fs/sysfs.c:945-948 | accepted exactly for 1..segs_per_sec and stored as an unsigned int; otherwise -EINVAL |
| F2fsSysfs.SbInfo.GcUrgentHighRemainingStore | fs/f2fs/sysfs.c:986-993 | a non-zero count turns the limit on and is stored as an unsigned int |
| F2fsSysfs.SbInfo.AtgcStore | fs/f2fs/sysfs.c:1031-1043 | the candidate ratio or age weight is accepted exactly when at most 100; otherwise -EINVAL with nothing changed |
| F2fsSysfs.SbInfo.GcSegmentModeStore | fs/f2fs/sysfs.c:1045-1051 | accepted exactly below MAX_GC_MODE |
| F2fsSysfs.SbInfo.GcReclaimedSegmentsStore | fs/f2fs/sysfs.c:1053-1058 | only 0 is accepted, and clears the count of the current segment mode alone |
| F2fsSysfs.SbInfo.MaxFragmentStore | fs/f2fs/sysfs.c:1060-1074 | max_fragment_chunk/hole accepted exactly within MIN_FRAGMENT_SIZE..MAX_FRAGMENT_SIZE |
| F2fsSysfs.SbInfo.PlainStore | fs/f2fs/sysfs.c:950-1078 | trim_sections is refused with -EINVAL and nothing changes (lines 950-951); any other attribute that reaches the final store (lines 1076-1078) takes the number cut to an unsigned int, nothing else changes |
| F2fsSysfs.SbInfo.FuaModeStore | fs/f2fs/sysfs.c:863-873 | the mode becomes the index of the name the trimmed text equals, unchanged when it equals none |
| F2fsSysfs.FuaMatch | fs/f2fs/sysfs.c:866-869 | a match is an index whose name equals the text |
| F2fsSysfs.FuaMatchNames | fs/f2fs/sysfs.c:866-869 | a text is matched exactly when it is one of NONE, ROOT, ALL, and then by that name's index |
| F2fsSysfs.FuaListingLength | fs/f2fs/sysfs.c:742-755 | each listed mode takes at least four characters |
| F2fsSysfs.SbInfo.FuaModeShowAsWritten | fs/f2fs/sysfs.c:742-755 | as written: the buffer holds the last entry only, the returned length is that of the full listing |
| F2fsSysfs.FuaShowAsWrittenOvercounts | fs/f2fs/sysfs.c:746-751 | as written, the returned length exceeds what the buffer holds, for every mode |
| F2fsSysfs.FuaListingDefault | fs/f2fs/sysfs.c:742-755 | for mode 0 the listing is "[NONE] ROOT ALL " (16 characters) while the as-written buffer holds "ALL " |
| F2fsSysfs.SbInfo.FuaModeShow | fs/f2fs/sysfs.c:742-755 | every mode name in order, the current one bracketed |
| F2fsSysfs.ResetGroupZeroes | fs/f2fs/sysfs.c:537-595 | resetting a group zeroes all its counters and leaves the other groups alone |
| F2fsSysfs.SbInfo.SecBigdataInitValue | fs/f2fs/sysfs.c:537-595 | the named group is reset as ResetGroup states, the written-bytes mark re-read only when the partition has one |
| F2fsSysfs.SbInfo.SecStatShow | fs/f2fs/sysfs.c:653-739 | the group's counters are reported, then reset unless sec_hqm_preserve is set |
| F2fsSysfs.JoinStep | fs/f2fs/sysfs.c:192-228 | a separator is added only after a non-empty listing |
| F2fsSysfs.SelectedStep | fs/f2fs/sysfs.c:189-228 | each further feature is listed exactly when present |
| F2fsSysfs.JoinPresent | fs/f2fs/sysfs.c:189-228 | the present names, in order, joined by ", " |
| F2fsSysfs.FeaturesShow | fs/f2fs/sysfs.c:183-234 | the present features, then pin_file, joined by ", ", then a newline |
| F2fsSysfs.FeaturesListingEnds | fs/f2fs/sysfs.c:229-233 | the listing always ends with "pin_file\n" |
| IpaIntf.StoredName | drivers/platform/msm/ipa/ipa_v2/ipa_intf.c:113 | the stored name is the given name cut to IPA_RESOURCE_NAME_MAX-1 characters, unchanged when it fits |
| IpaIntf.FindIntf | drivers/platform/msm/ipa/ipa_v2/ipa_intf.c:192-233 | a result is the first position holding the name; none means no entry holds it |
| IpaIntf.FindIntfFirst | drivers/platform/msm/ipa/ipa_v2/ipa_intf.c:192-201 | the list walk stopping at the first match yields FindIntf's position |
| IpaIntf.IpaContext.FindIntfIn | drivers/platform/msm/ipa/ipa_v2/ipa_intf.c:192-201 | walks the interface list to FindIntf's result |
| IpaIntf.Without | drivers/platform/msm/ipa/ipa_v2/ipa_intf.c:195 | list_del of one entry keeps every other entry in order |
| IpaIntf.IpaContext.RegisterIntfExt | drivers/platform/msm/ipa/ipa_v2/ipa_intf.c:75-164 | -EINVAL exactly for a missing name, no property set, or a set over IPA_NUM_PROPS_MAX; -ENOMEM exactly when a reached allocation fails; otherwise the interface, with truncated name and the ext exception pipe only when marked valid, is appended at the tail |
| IpaIntf.RegisterDeregisterRoundTrip | drivers/platform/msm/ipa/ipa_v2/ipa_intf.c:160-201 | an interface appended under a new name is found at the tail, and removing it restores the list |
| IpaIntf.IpaContext.DeregisterIntfAsWritten | drivers/platform/msm/ipa/ipa_v2/ipa_intf.c:176-206 | as written: the first entry whose stored name equals the untruncated name is removed and 0 returned; otherwise -EINVAL with the list unchanged |
| IpaIntf.LongNameNeverFound | drivers/platform/msm/ipa/ipa_v2/ipa_intf.c:113-193 | a name of IPA_RESOURCE_NAME_MAX characters or more, accepted by registration, never matches a stored name |
| IpaIntf.StoredNameFound | drivers/platform/msm/ipa/ipa_v2/ipa_intf.c:113-193 | truncating the name as registration does finds the interface registered under it |
| IpaIntf.IpaContext.DeregisterIntf | drivers/platform/msm/ipa/ipa_v2/ipa_intf.c:176-206 | removes only the first entry of the truncated name and returns 0; with none, -EINVAL and no change |
| IpaIntf.IpaContext.QueryIntf | drivers/platform/msm/ipa/ipa_v2/ipa_intf.c:220-244 | the counts and exception pipe of the first entry of the truncated name; otherwise -EINVAL |
| IpaIntf.IpaContext.QueryIntfProps | drivers/platform/msm/ipa/ipa_v2/ipa_intf.c:256-369 | the stored properties of the first match, only when the caller's count equals the stored count; otherwise -EINVAL |
| IpaIntf.QueueFifo | drivers/platform/msm/ipa/ipa_v2/ipa_intf.c:724-726 | messages leave the queue in the order they were added |
| IpaIntf.IpaContext.SendMsg | drivers/platform/msm/ipa/ipa_v2/ipa_intf.c:495-551 | -EINVAL exactly for missing meta, a buffer without callback or the reverse, or a type of IPA_EVENT_MAX_NUM or more; -ENOMEM for a failed container or copy; otherwise the message is enqueued at the tail, the write count of its type goes up and the WLAN cache is updated |
| IpaIntf.IpaContext.WlanMsgProcess | drivers/platform/msm/ipa/ipa_v2/ipa_intf.c:376-478 | a connect event is cached unless an allocation fails; a disconnect event drops the cached events of that MAC; the cache only ever gains the event just sent, so every cached type stays a valid event |
| IpaIntf.DropMacSound | drivers/platform/msm/ipa/ipa_v2/ipa_intf.c:448-474 | after a disconnect no cached event carries that MAC, every other event stays, and the cache does not grow |
| IpaIntf.DropMacFrom | drivers/platform/msm/ipa/ipa_v2/ipa_intf.c:448-474 | the walk over the cache keeps exactly the events DropMac keeps |
| IpaIntf.EntryHasMac | drivers/platform/msm/ipa/ipa_v2/ipa_intf.c:451-470 | the attribute loop finds a MAC-type attribute holding the address exactly when there is one |
| IpaIntf.ConnectThenDisconnect | drivers/platform/msm/ipa/ipa_v2/ipa_intf.c:389-476 | a connect event followed by a disconnect of the same MAC leaves no cached event of that client |
| IpaIntf.IpaContext.ResendWlanMsg | drivers/platform/msm/ipa/ipa_v2/ipa_intf.c:562-617 | copies of the cached events are enqueued in cache order; a failed allocation stops it with -ENOMEM after the earlier ones |
| IpaIntf.IpaContext.RegisterPullMsg | drivers/platform/msm/ipa/ipa_v2/ipa_intf.c:631-654 | -EINVAL without meta or callback, -ENOMEM on a failed allocation, otherwise appended |
| IpaIntf.FindPull | drivers/platform/msm/ipa/ipa_v2/ipa_intf.c:826-827 | a result is the first entry matching both length and type |
| IpaIntf.FindPullFirst | drivers/platform/msm/ipa/ipa_v2/ipa_intf.c:678-686 | the walk stopping at the first match yields FindPull's position |
| IpaIntf.IpaContext.FindPullIn | drivers/platform/msm/ipa/ipa_v2/ipa_intf.c:678-686 | walks the pull list to FindPull's result |
| IpaIntf.IpaContext.DeregisterPullMsg | drivers/platform/msm/ipa/ipa_v2/ipa_intf.c:666-689 | only the first entry matching length and type is removed; otherwise -EINVAL with no change |
| IpaIntf.IpaContext.PullMsgFrom | drivers/platform/msm/ipa/ipa_v2/ipa_intf.c:814-835 | -EINVAL on bad arguments or no match; otherwise the first match's callback is called and its result returned |
| IpaIntf.IpaContext.Read | drivers/platform/msm/ipa/ipa_v2/ipa_intf.c:708-798 | an empty queue gives -EAGAIN, -EINTR or a wait; otherwise the head is dequeued and either lost with -EFAULT (short buffer or fault) or delivered with its byte count and the read count of its type incremented |
| Rhashtable.BitAndBounded | include/linux/rhashtable.h:92-96 | x & y is at most either operand |
| Rhashtable.MaskIsRemainder | include/linux/rhashtable.h:92-96 | masking with n - 1 keeps the remainder by n for a power of two n |
| Rhashtable.BucketIndex | include/linux/rhashtable.h:92-96 | hash & (size - 1) is always below size |
| Rhashtable.BucketIsRemainder | include/linux/rhashtable.h:92-96 | for a power-of-two size the bucket index is hash mod size |
| Rhashtable.IsANulls | include/linux/rhashtable.h:81-84 | a chain pointer is the nulls marker exactly when its low bit is set |
| Rhashtable.GrowAbove75 | include/linux/rhashtable.h:155-161 | more than 3/4 of the buckets' number of objects and room to grow makes it hold; for sizes that are multiples of 4, exactly then |
| Rhashtable.ShrinkBelow30 | include/linux/rhashtable.h:168-174 | holds exactly when 10 * (nelems + 1) fits in the 32-bit size * 3 and the size is above the minimum, so the load is below 30% |
| Rhashtable.GrowShrinkExclusive | include/linux/rhashtable.h:155-174 | no table is due both to grow and to shrink |
| Rhashtable.Grow100ImpliesGrow75 | include/linux/rhashtable.h:155-185 | a table over 100% full is over 75% full |
| Rhashtable.FirstKey | include/linux/rhashtable.h:456-485 | a result is the first chain position holding the key; none means no object in the chain has it |
| Rhashtable.Position | include/linux/rhashtable.h:887-896 | a result is the first position of the object; none exactly when the object is not in the chain |
| Rhashtable.Unlink | include/linux/rhashtable.h:916-928 | unlinking one position keeps every other object in order |
| Rhashtable.CountUpdate | include/linux/rhashtable.h:928-935 | replacing one chain changes the object count by the difference of the chain lengths |
| Rhashtable.CountEmpty | include/linux/rhashtable.h:78-79 | a table of empty chains counts no object |
| Rhashtable.InsertThenLookup | include/linux/rhashtable.h:651-661 | an object linked behind a chain without its key is what a lookup of the key finds |
| Rhashtable.InsertRemoveRoundTrip | include/linux/rhashtable.h:887-928 | removing an object just linked behind a chain that did not hold it gives the chain back |
| Rhashtable.WalkKey | include/linux/rhashtable.h:605-641 | the keyed walk stops at FirstKey's position; a keyless walk finds nothing; with nothing found the elasticity left is 16 minus the chain length |
| Rhashtable.WalkObj | include/linux/rhashtable.h:1039-1044 | the walk stops at the object's Position |
| Rhashtable.InsertErrno | include/linux/rhashtable.h:692-703 | 0 exactly for a linked object, -EEXIST for an object already there, the (negative) error otherwise; nothing when the slow path decides |
| Rhashtable.HashTable.constructor | include/linux/rhashtable.h:78-79 | a table of the given power-of-two size with every chain empty and nelems 0 |
| Rhashtable.HashTable.Lookup | include/linux/rhashtable.h:466-497 | the first object of the key in the key's chain; none only when no chain of the table holds the key |
| Rhashtable.HashTable.InsertFast | include/linux/rhashtable.h:575-675 | with a key, an object of that key in the chain is handed back; otherwise a chain of 16, a table over 100% or a future table takes the slow path, a full table gives -E2BIG, and the object is appended at the end of its chain with nelems + 1 and resize work scheduled when over 75%; nothing changes unless linked |
| Rhashtable.HashTable.InsertFastErrno | include/linux/rhashtable.h:692-703 | the keyless insert never reports -EEXIST itself; 0 exactly when appended |
| Rhashtable.HashTable.LookupInsertFast | include/linux/rhashtable.h:775-790 | -EEXIST exactly when an object of the key is in its chain; 0 when appended |
| Rhashtable.HashTable.RemoveFastOne | include/linux/rhashtable.h:871-942 | 0 exactly when the object is in its chain, which is then unlinked with nelems - 1 and shrink work scheduled when allowed and below 30%; otherwise -ENOENT and no change |
| Rhashtable.HashTable.ReplaceFast | include/linux/rhashtable.h:1017-1055 | -EINVAL when the objects fall in different buckets, -ENOENT when the old one is absent, otherwise it is swapped in place; nelems never changes |
| Wrappers.HexValue | techpack/display/msm/samsung/ss_dsi_panel_debug.c:199-201 | the "%x" text of a number is lower-case hex digits whose value is the number |
| SsPanelDebug.TimeFieldWidth | techpack/display/msm/samsung/ss_dsi_panel_debug.c:188-189 | the "[%5llu.%6llu]:" time field takes at least fifteen columns |
| SsPanelDebug.AlignedTime | techpack/display/msm/samsung/ss_dsi_panel_debug.c:188-194 | the time field followed by spaces up to the alignment column, never shorter than the field |
| SsPanelDebug.DataTextPrefix | techpack/display/msm/samsung/ss_dsi_panel_debug.c:199-201 | the "%x " text of the first i data words is a prefix of the text of all of them |
| SsPanelDebug.EntryTextShape | techpack/display/msm/samsung/ss_dsi_panel_debug.c:188-203 | a dumped entry starts with its time field, has name and " => " at the alignment column and ends with a newline |
| SsPanelDebug.BackwardsOrder | techpack/display/msm/samsung/ss_dsi_panel_debug.c:276-293 | the panic listing is newest first: it begins with entry k's text and ends with the listing of every older entry |
| SsPanelDebug.Clip | techpack/display/msm/samsung/ss_dsi_panel_debug.c:281-291 | what the panic buffer keeps is a prefix of the text, as long as the text or the buffer less its terminator |
| SsPanelDebug.ClipOfPrefix | techpack/display/msm/samsung/ss_dsi_panel_debug.c:283-291 | stopping once the text fills the buffer leaves the same buffer as writing the whole listing |
| SsPanelDebug.CalcRange | techpack/display/msm/samsung/ss_dsi_panel_debug.c:140-174 | nothing to dump exactly when the reader has caught up; otherwise first <= last at most one ring apart, last only brought up by one ring, first at the reader's ring slot unless clamped, and the reader one past first |
| SsPanelDebug.CalcRangeInOrder | techpack/display/msm/samsung/ss_dsi_panel_debug.c:149-168 | a reader at most one ring behind dumps its own next entry and moves on by one |
| SsPanelDebug.CalcRangeOverrun | techpack/display/msm/samsung/ss_dsi_panel_debug.c:162-168 | a reader more than one ring behind restarts at the oldest entry the ring holds |
| SsPanelDebug.CalcRangeDrains | techpack/display/msm/samsung/ss_dsi_panel_debug.c:140-174 | from at most one ring behind, each read dumps exactly when behind and leaves the reader one entry closer and still within a ring |
| SsPanelDebug.ReadOutcome | techpack/display/msm/samsung/ss_dsi_panel_debug.c:219-228 | 0 when the entry does not fit the user's count, -EFAULT exactly when the copy faults, otherwise the length, which advances the position |
| SsPanelDebug.XLog.constructor | techpack/display/msm/samsung/ss_dsi_panel_debug.c:140-149 | a log with its reader and both ends at 0 |
| SsPanelDebug.XLog.DumpCalcRange | techpack/display/msm/samsung/ss_dsi_panel_debug.c:140-174 | the new first, last and reader position are those of CalcRange; the entries are untouched |
| SsPanelDebug.XLog.DumpEntry | techpack/display/msm/samsung/ss_dsi_panel_debug.c:176-208 | the text of the entry in slot first mod the ring size, and its length |
| SsPanelDebug.FormatEntry | techpack/display/msm/samsung/ss_dsi_panel_debug.c:188-203 | the field-by-field formatting produces EntryText |
| SsPanelDebug.XLog.StorePanicDbg | techpack/display/msm/samsung/ss_dsi_panel_debug.c:266-295 | the buffer holds the newest-first listing from the entry before `last` (read as int) down to entry 0, clipped to the buffer |
| SsPanelDebug.PanicListing | techpack/display/msm/samsung/ss_dsi_panel_debug.c:276-295 | the walk from entry l0 down yields the clipped listing and always fits the buffer |
| SsPanelDebug.WalkBack | techpack/display/msm/samsung/ss_dsi_panel_debug.c:276-291 | either the whole listing or a prefix of it that reaches the buffer size |
| SsPanelDebug.AppendData | techpack/display/msm/samsung/ss_dsi_panel_debug.c:285-290 | all the "%x " words, or a prefix of them that reaches the limit |
| SsPanelDebug.DumpRead | techpack/display/msm/samsung/ss_dsi_panel_debug.c:210-246 | the main log is consumed first; the vsync log is consulted only when the main one has nothing to dump; the outcome is ReadOutcome of the dumped entry |
| SsPanelDebug.DumpShow | techpack/display/msm/samsung/ss_dsi_panel_debug.c:248-259 | the main log's next entry, or nothing when the reader has caught up, and its length |
| SsPanelDebug.FirstTable | techpack/display/msm/samsung/ss_dsi_panel_debug.c:815-822 | the position of the first record of the table, with none before it; none when no record has it |
| SsPanelDebug.DropFirstTable | techpack/display/msm/samsung/ss_dsi_panel_debug.c:815-822 | removes exactly the first record of the table, or nothing when absent |
| SsPanelDebug.MapThenUnmap | techpack/display/msm/samsung/ss_dsi_panel_debug.c:778-822 | unmapping a table just mapped gives back the list before the map |
| SsPanelDebug.FindTable | techpack/display/msm/samsung/ss_dsi_panel_debug.c:815-822 | the list walk finds FirstTable |
| SsPanelDebug.SmmuDebug.constructor | techpack/display/msm/samsung/ss_dsi_panel_debug.c:714-746 | no type initialised, no cache, empty lists |
| SsPanelDebug.SmmuDebug.Init | techpack/display/msm/samsung/ss_dsi_panel_debug.c:714-746 | always -EPERM with every init_done cleared, so no later map records anything |
| SsPanelDebug.SmmuDebug.Map | techpack/display/msm/samsung/ss_dsi_panel_debug.c:749-789 | for an initialised type with its cache and a successful allocation, the record goes at the head of its list; otherwise nothing changes |
| SsPanelDebug.SmmuDebug.Unmap | techpack/display/msm/samsung/ss_dsi_panel_debug.c:791-824 | for an initialised type, the first record of the table is removed; otherwise nothing changes |
| TraceIrqsoff.TraceType | kernel/trace/trace_irqsoff.c:674-679 | the irqs-off bit is set for irqsoff and preemptirqsoff, the preempt-off bit for preemptoff and preemptirqsoff |
| TraceIrqsoff.HooksExclusive | kernel/trace/trace_irqsoff.c:629-672 | the interrupt hooks and the preemption hooks never both forward an event; the idle hooks forward whenever either does |
| TraceIrqsoff.HooksByKind | kernel/trace/trace_irqsoff.c:443-459 | irqsoff times exactly interrupts-off sections, preemptoff exactly preemption-off ones, and preemptirqsoff leaves a section covered by both to neither hook |
| TraceIrqsoff.Delta | kernel/trace/trace_irqsoff.c:332-334 | T1 - T0 in u64: the plain difference, or the wrapped one when the clock went back |
| TraceIrqsoff.ReportLatency | kernel/trace/trace_irqsoff.c:310-320 | with a threshold, reported iff the latency reaches it; without one, iff it exceeds the maximum |
| TraceIrqsoff.CheckCriticalTiming | kernel/trace/trace_irqsoff.c:322-372 | after every check the CPU holds the current sequence and a restarted clock, its start and disabled count untouched |
| TraceIrqsoff.CheckRecords | kernel/trace/trace_irqsoff.c:342-363 | a snapshot is taken iff the latency is reported, the sequence matches and tracing is not stopped; then the maximum is that latency and the section end is recorded, otherwise the maximum is unchanged |
| TraceIrqsoff.CheckSequence | kernel/trace/trace_irqsoff.c:353-369 | max_sequence moves on by one modulo 2^64 exactly when a reported section had a matching sequence, stopped or not |
| TraceIrqsoff.CheckGrowsMax | kernel/trace/trace_irqsoff.c:340-361 | without a threshold the maximum never decreases and a snapshot means a strictly longer section |
| TraceIrqsoff.ThresholdRecordsShorter | kernel/trace/trace_irqsoff.c:310-320 | with a threshold, a section shorter than the maximum but at the threshold replaces it |
| TraceIrqsoff.OtherSectionStale | kernel/trace/trace_irqsoff.c:353-369 | once one CPU records a maximum, a section another CPU began earlier is stale and records nothing |
| TraceIrqsoff.CallSite | kernel/trace/trace_irqsoff.c:397 | `parent_ip ? : ip`: the parent when it is non-zero, the ip otherwise |
| TraceIrqsoff.Started | kernel/trace/trace_irqsoff.c:395-397 | a started section takes the current sequence, the start time and the call site |
| TraceIrqsoff.StartThenCheck | kernel/trace/trace_irqsoff.c:374-441 | a section started with no maximum recorded since becomes the maximum exactly when it is longer, and its length is the clock difference |
| TraceIrqsoff.InitFlags | kernel/trace/trace_irqsoff.c:564-568 | init forces OVERWRITE and LATENCY_FMT on and leaves FUNCTION |
| TraceIrqsoff.RestoreFlags | kernel/trace/trace_irqsoff.c:588-594 | reset sets LATENCY_FMT and OVERWRITE to their saved values and keeps FUNCTION as it is |
| TraceIrqsoff.ResetUndoesInit | kernel/trace/trace_irqsoff.c:559-598 | reset after init gives the flags back as they were before init |
| TraceIrqsoff.Tracer.constructor | kernel/trace/trace_irqsoff.c:26-40 | nothing traced on any CPU, no maximum, tracer off and not busy |
| TraceIrqsoff.Tracer.FuncPrologDec | kernel/trace/trace_irqsoff.c:101-136 | 1 with the CPU's disabled count raised exactly when the CPU is timing, interrupts or preemption are off and the count was 0; 0 with nothing changed otherwise |
| TraceIrqsoff.Tracer.TracerCall | kernel/trace/trace_irqsoff.c:141-155 | the call is traced under the same condition and the disabled count is back where it was |
| TraceIrqsoff.Tracer.StartCriticalTiming | kernel/trace/trace_irqsoff.c:374-408 | with the tracer and tracing on, a CPU not yet timing and not inside the tracer starts a section and is marked timing; otherwise nothing changes |
| TraceIrqsoff.Tracer.StopCriticalTiming | kernel/trace/trace_irqsoff.c:410-441 | the CPU is always unmarked; a running section with a start is checked as CheckCriticalTiming says and its start cleared; otherwise nothing else changes |
| TraceIrqsoff.Tracer.SetEnabled | kernel/trace/trace_irqsoff.c:600-608 | start and stop only switch tracer_enabled |
| TraceIrqsoff.Tracer.Init | kernel/trace/trace_irqsoff.c:536-584 | trace_type is set, then -EBUSY while busy; otherwise the flags are saved and forced, the maximum cleared, the function tracer registered when FUNCTION is set, the tracer enabled iff that succeeded and tracing is on, busy set and 0 returned |
| TraceIrqsoff.Tracer.Reset | kernel/trace/trace_irqsoff.c:586-598 | the tracer disabled, the function tracer unregistered, the two flags restored, not busy |
| BackingDev.KStrToUl | mm/backing-dev.c:160-163 | kstrtoul's verdict on the text after "temporary ": a value below 2^64, -ERANGE for a larger number, -EINVAL for anything but an optional '+', digits and one optional newline |
| BackingDev.LeadingDigits | mm/backing-dev.c:160 | the digits kstrtoul consumes are the longest all-digit prefix of the text |
| BackingDev.KStrToUlDecimal | mm/backing-dev.c:160 | kstrtoul reads back any 64-bit value written in decimal, with or without the newline |
| BackingDev.KStrToUlOverflow | mm/backing-dev.c:160-163 | a number of 2^64 or more is -ERANGE whatever follows it |
| BackingDev.KStrToUlTrailing | mm/backing-dev.c:160-163 | text after the number other than one newline is -EINVAL |
| BackingDev.Bdi.ReadAheadKbStore | mm/backing-dev.c:145-167 | text not starting with "temporary " returns count and changes nothing; a rejected number returns kstrtoul's error and changes nothing; otherwise ra_pages becomes kb >> (PAGE_SHIFT - 10) and count is returned |
| BackingDev.PagesToKb | mm/backing-dev.c:169 | K(pages) is four times the page count while it fits, wrapped to 64 bits otherwise |
| BackingDev.ReadAheadKbShow | mm/backing-dev.c:171-181 | the shown text ends in a newline; it is the decimal KiB count while that fits in a long long and starts with '-' once the cast goes negative |
| BackingDev.ShowThenStore | mm/backing-dev.c:145-181 | storing "temporary " plus the shown text parses to the shown KiB and sets ra_pages back to its value |
| BackingDev.StoreThenShow | mm/backing-dev.c:145-181 | after storing kb KiB the attribute shows kb rounded down to whole pages |
| BackingDev.CountUpdate | mm/backing-dev.c:1089-1110 | replacing one congested object changes the number of set bits by that object's old and new bit only |
| BackingDev.Bdi.SetWbCongested | mm/backing-dev.c:1103-1110 | sets the bit for sync and increments nr_wb_congested[sync] only on a clear-to-set transition; each counter stays the number of set bits |
| BackingDev.Bdi.ClearWbCongested | mm/backing-dev.c:1089-1100 | clears the bit and decrements the counter only on a set-to-clear transition; each counter stays the number of set bits |
| BackingDev.SetClearRestores | mm/backing-dev.c:1089-1110 | setting a clear bit and clearing it again gives back the objects as they were |
| BackingDev.Bdi.GetCreate | mm/backing-dev.c:489-539 | an id in the tree gains a reference on its object; a missing id gets a new linked object with refcnt 1; a failed allocation returns NULL and changes nothing |
| BackingDev.Bdi.Put | mm/backing-dev.c:547-563 | drops one reference; only the last one frees the object and erases it from the tree, and only if it is still linked |
| BackingDev.Bdi.CgwbBdiExit | mm/backing-dev.c:838-851 | empties the tree and marks every object unlinked, changing nothing else |
| BackingDev.Bdi.WbInit | mm/backing-dev.c:368-423 | the writeback starts at now with all four bandwidth estimates INIT_BW; a failed lookup is -ENOMEM with nothing changed; a later failure returns its error and puts the reference back; success holds a live object of the cgroup, linked in the tree |
| BackingDev.Bdi.BdiInit | mm/backing-dev.c:914-935 | min_ratio 0, max_ratio 100, max_prop_frac FPROP_FRAC_BASE, one reference; on success the tree holds only the root cgroup's object, which the root writeback holds |
| BackingDev.Bdi.WbExit | mm/backing-dev.c:452-465 | the writeback's congested object loses one reference and is freed exactly when none is left |
| BackingDev.Bdi.WaitIffCongested | mm/backing-dev.c:1153-1186 | with no congested object for sync the result is max(0, timeout - elapsed) computed through unsigned long jiffies and never negative; otherwise it is what io_schedule_timeout left |
| Falcon.LeRoundTrip | drivers/gpu/drm/tegra/falcon.c:69-71 | the little-endian bytes of a 32-bit word read back as that word |
| Falcon.WordsSlice | drivers/gpu/drm/tegra/falcon.c:69-71 | word i of a run of little-endian words occupies bytes 4i to 4i+3 |
| Falcon.ReadWord | drivers/gpu/drm/tegra/falcon.c:89-117 | a header field read from the buffer at its byte offset is the word stored there |
| Falcon.ParseImage | drivers/gpu/drm/tegra/falcon.c:87-120 | -EINVAL exactly when the magic is not 0x10de, the version is not 1 or the declared size exceeds the image; on success the binary-data descriptor is os_data_offset and os_size |
| Falcon.ParseOfImage | drivers/gpu/drm/tegra/falcon.c:110-117 | an image laid out as binary header, gap, OS header parses to the descriptors its headers hold: the round trip of the header layout |
| Falcon.ImageBin | drivers/gpu/drm/tegra/falcon.c:89 | the binary header reads back from an encoded image |
| Falcon.ImageOs | drivers/gpu/drm/tegra/falcon.c:110 | the OS header reads back from an encoded image at the offset the binary header gives |
| Falcon.WrongMagicRejected | drivers/gpu/drm/tegra/falcon.c:93-96 | an image whose magic is not NVIDIA's PCI vendor id is rejected whatever else it holds |
| Falcon.ChunkCmd | drivers/gpu/drm/tegra/falcon.c:49-52 | the command's size field is the 256-byte transfer for both targets, and the IMEM bit is set exactly for IMEM |
| Falcon.ChunkWrites | drivers/gpu/drm/tegra/falcon.c:44-59 | copy_chunk writes the Falcon-memory offset, then the buffer offset, each truncated to u32, then the command |
| Falcon.DataChunksLength | drivers/gpu/drm/tegra/falcon.c:213-216 | the data loop issues one chunk per 256 bytes of the segment, rounding up |
| Falcon.DataChunkAt | drivers/gpu/drm/tegra/falcon.c:213-216 | chunk j copies from data.offset + 256j to Falcon offset 256j, for every 256j below data.size |
| Falcon.DataChunksNoImem | drivers/gpu/drm/tegra/falcon.c:213-216 | no command of the data loop carries the IMEM bit |
| Falcon.CopyDataSegment | drivers/gpu/drm/tegra/falcon.c:213-216 | the loop over offsets 0, 256, ... below data.size writes exactly the chunk sequence the data-loop specification describes |
| Falcon.BootImemOnce | drivers/gpu/drm/tegra/falcon.c:213-220 | of all transfer commands a boot writes, exactly one targets IMEM: the first code chunk, right after the data chunks |
| Falcon.Falcon.Init | drivers/gpu/drm/tegra/falcon.c:171-180 | -EINVAL exactly when ops, alloc or free is missing; otherwise 0 and vaddr NULL |
| Falcon.Falcon.ReadFirmware | drivers/gpu/drm/tegra/falcon.c:122-132 | request_firmware's error is returned with no blob held; otherwise the blob is held |
| Falcon.Falcon.CopyFirmwareImage | drivers/gpu/drm/tegra/falcon.c:61-72 | every whole 32-bit word of the blob lands in the buffer at its offset, and the bytes past the last whole word are untouched |
| Falcon.Falcon.ParseFirmwareImage | drivers/gpu/drm/tegra/falcon.c:87-120 | a rejected header returns -EINVAL with the descriptors unchanged; an accepted one returns 0 and stores the parsed descriptors |
| Falcon.Falcon.LoadFirmware | drivers/gpu/drm/tegra/falcon.c:134-169 | a failed allocation is -ENOMEM; a rejected image is -EINVAL with the buffer freed once and vaddr NULL; both failures keep the blob and the descriptors; success keeps the buffer, stores the descriptors and drops the blob |
| Falcon.Falcon.Exit | drivers/gpu/drm/tegra/falcon.c:182-195 | leaves the blob and vaddr NULL, and frees the buffer exactly when there was one |
| Falcon.Falcon.Boot | drivers/gpu/drm/tegra/falcon.c:197-253 | -EINVAL with no register written when vaddr is NULL; otherwise the boot write sequence and the idle wait's result |
| Falcon.Falcon.LoadFirmwareAsWritten | drivers/gpu/drm/tegra/falcon.c:134-169 | as written: a rejected image frees the buffer and returns -EINVAL but leaves vaddr pointing at the freed buffer; both failures keep the blob and the descriptors |
| Falcon.DoubleFreeAsWritten | drivers/gpu/drm/tegra/falcon.c:164-195 | a load of a bad image followed by falcon_exit, as written, calls ops->free twice with the same buffer |
| Falcon.SingleFree | drivers/gpu/drm/tegra/falcon.c:164-195 | the same sequence with the corrected load frees the buffer exactly once |

## Left out

Throughout:
- Locks, RCU, atomics as concurrency primitives, memory barriers and
  preemption are not modelled. Each operation runs alone.
- `printk`, tracepoints, debugfs/sysfs/procfs registration, workqueues,
  timers and wait queues are left out. Work that gets scheduled is recorded
  as a flag where a caller depends on it.
- Allocators are a success/failure input. Freed memory is not reclaimed in
  the model.
- `copy_to_user`/`copy_from_user` are left out. The user buffer is a value.

insert_kunit.py:
- The template provider `kunit_new_template.create_skeletons` is not part of this model. It is a function parameter whose three strings are opaque.
- `os.path.abspath`, `argparse`, the debug printing (`__cat_file`) and the final message are left out. `Run` returns the reported path instead of printing it.
- Whitespace collapsing uses the ASCII whitespace set, the separators `\x1c`-`\x1f`, U+0085 and U+00A0. Other Unicode spaces and non-ASCII case mapping are not modelled.
- Newline translation is not modelled: files hold `\n` line endings.
- InsertKunit.ReplaceAll: its own contract states only that a string without the pattern is unchanged. The replacing case is stated by ReplaceLeading, and its one use by KconfigProbeStripsPrefix; a stem that itself spells CONFIG_ loses that part too, and no lemma states the probe then.
- InsertKunit.RunIdempotent: the run-twice theorem assumes the parent Makefile is empty or ends with a newline, and that the stem holds no `$`. Otherwise the appended coverage line can merge with the last line and change the guard found on the second run.

time.h:
- `time64_to_tm` and the `time32.h`/`time64.h` helpers are not part of this model, apart from `timespec64_valid`.
- KernelTime.MkTime64Affine: the closed form is proved for years 1 to 10^6 and days up to 10^6, where nothing wraps. For all inputs only the 64-bit range of the result is stated.

vbox_hgsmi.c:
- `hgsmi_buffer_submit` is left out: it is a port write of the buffer's physical address.
- Hgsmi.AllocFreeRoundTrip: stated for sizes below 2^32. `data_size` is a u32, so for a larger `size_t` the free would recompute a truncated size; the model states that truncation (DataSize) but no round trip for it.
- `gen_pool_dma_alloc`/`gen_pool_free` are inputs and outputs: `BufferAlloc` takes the region the pool handed out, and `BufferFree` returns the address and size to release.

gcc_4_7.c:
- `gcov_info_dup`, `gcov_info_free`, `gcov_info_within_module`, `gcov_info_filename`, `gcov_info_version`, `gcov_iter_free` and `gcov_iter_get_info` are left out. They are allocation, copy and accessor code with no property beyond their fields.
- `seq_write` is modelled as handing back the chunk.
- The `.gcda` image is a sequence of 32-bit words in host order, since every store is a whole aligned u32.
- The tag constants of `kernel/gcov/gcov.h` and `GCOV_COUNTERS` (gcc 10 and later) come from headers that are not part of this model.

fdtget.c:
- libfdt is not part of this model. The blob is a map from path to node, and each node carries its properties, its property-name list and its tag stream.
- `utilfdt_read` is an input: `None` when reading fails.
- `util_is_printable_string` is an input flag per property.
- `utilfdt_decode_type` is an input per `-t` option: valid, with a type and size, or invalid.
- `report_error`'s text on stderr is left out; the status is kept.
- `usage()` exits the process. The model returns a `Usage` outcome instead.
- The common `-h`/`-V` flags are left out.
- FdtGet.Walk: a node whose name `fdt_get_name` cannot read prints "/* NULL pointer error */" in list_subnodes; the model's tag stream always carries a name, so that line is not modelled.

vmx_evmcs.h:
- Only the eleven read-only `EVMCS1_FIELD` initializers are written out as data. For the rest of the table, the lookup is proved for any list of initializers.
- The offsets of `struct hv_enlightened_vmcs` and the `HV_VMX_ENLIGHTENED_CLEAN_FIELD_*` masks are not part of this model. They are a parameter and an enumeration.

arm-gic-v3.h:
- The register and bit constants that no macro combines are not restated.
- System-register access in `gic_enable_sre` is a class holding the register value, with a read and a write method.
- Whether the SRE bit accepts a write (firmware or a higher exception level may hold it) is a constructor parameter.

dsi_defs.h:
- Only the timing totals, `dsi_rect_is_equal`, `dsi_pixel_format_to_bpp` and the lane and clock bits are modelled. The remaining enumerations and structure declarations carry no logic.

leds-ktd2692.h, leds-s2mpb02.h:
- Register addresses and constants that no macro combines are left out.
- Each C int expression asks that its product fit in an int. Signed overflow is undefined behaviour in C.

zdata.h:
- A page is only the fields these helpers touch: private word, private flag, uptodate, locked, error and reference count. The page cache and the unlock wake-up are left out.
- The atomic compare-and-exchange retry of `z_erofs_onlinepage_fixup` is modelled with the other CPUs' stores as a parameter.

kgsl.c:
- Only the functions listed in the module headers are modelled.
- The bind tree is an unbalanced binary search tree. Rebalancing is not modelled; rotations keep the in-order sequence that every property is stated on.
- The uapi flag words are split into the fields the functions test. The uapi header is not part of this model.
- IOMMU mapping of sparse binds, `copy_from_user` and the ioctl dispatch are left out.
- Kgsl.MemEntry.SetPend: called on an entry object, so the source's NULL-entry path (return false, line 1594) is not modelled.
- Kgsl.MemEntry.UnsetPend: called on an entry object, so the source's NULL-entry early return (line 1546) is not modelled.

cpufreq_schedutil.c:
- `sugov_update_single`/`sugov_update_shared`, `sugov_next_freq`, the kthread and irq-work paths, and the tunables other than the up/down rate limits and `hispeed_load` are left out.
- Runqueue utilisation readings, uclamp and `TICK_NSEC` are parameters.

arch_topology.c:
- The device-tree read of `capacity-dmips-mhz` is an input per CPU.
- The sysfs attribute registration, `update_topology_flags_workfn` and `topology_update_cpu_topology` are left out.
- `parsing_done_workfn` (unregistering the cpufreq notifier) is recorded as a flag.
- ArchTopology.Topology.NormalizeCpuScale: requires capacity_scale > 0 when raw capacities exist. If every parsed capacity-dmips-mhz value is 0, capacity_scale stays 0 and the source divides by it (line 241), which is undefined in C and not modelled.
- ArchTopology.Topology.InitCpuCapacityCallback: requires capacity_scale > 0 for a notification while raw capacities exist, because the last visit normalises; the zero case is the division by zero above.
- The `/proc` file that sets `cpu_cap_fixup_target` (lines 71-110) is left out. `CpuCapacityShow` takes the target as a parameter (`None` when CONFIG_CPU_CAPACITY_FIXUP is off) and the reading task's `comm` as an input.

lru_sort.c:
- The DAMON core (`damon_set_attrs`, `damon_new_scheme`, `damon_set_schemes`, `damon_add_scheme`, `damon_set_regions`, `damon_start`, `damon_stop`, `damon_find_biggest_system_ram`) is not part of this model. Its results are a `DamonEnv` value.
- Module-parameter parsing is left out.
- DamonLruSort.HotThres: requires a non-zero sample interval; the source divides by it unchecked (lines 240-242 and 250), which is undefined in C; the sampling and aggregation intervals are writable module parameters, so a zero can reach it.
- DamonLruSort.ColdThres: requires a non-zero aggregation interval; the source divides by it unchecked (lines 240-242 and 250), which is undefined in C; the sampling and aggregation intervals are writable module parameters, so a zero can reach it.
- DamonLruSort.LruSort.ApplyParameters: requires non-zero intervals because it computes HotThres and ColdThres; the source divides by it unchecked (lines 240-242 and 250), which is undefined in C; the sampling and aggregation intervals are writable module parameters, so a zero can reach it.
- DamonLruSort.LruSort.Turn: requires non-zero intervals because turning on applies the parameters; the source divides by it unchecked (lines 240-242 and 250), which is undefined in C; the sampling and aggregation intervals are writable module parameters, so a zero can reach it.
- DamonLruSort.LruSort.TimerFn: requires non-zero intervals because it may turn the module on; the source divides by it unchecked (lines 240-242 and 250), which is undefined in C; the sampling and aggregation intervals are writable module parameters, so a zero can reach it.
- DamonLruSort.LruSort.HandleCommitInputs: requires non-zero intervals because it reapplies the parameters; the source divides by it unchecked (lines 240-242 and 250), which is undefined in C; the sampling and aggregation intervals are writable module parameters, so a zero can reach it.
- DamonLruSort.LruSort.AfterAggregation: requires non-zero intervals because it handles committed inputs; the source divides by it unchecked (lines 240-242 and 250), which is undefined in C; the sampling and aggregation intervals are writable module parameters, so a zero can reach it.

f2fs sysfs.c:
- The `s_umount` trylock of `f2fs_sbi_store` (-EAGAIN) is left out.
- `kstrtoul` parsing itself is left out here: the number is the input.
- The iostat, compression and fault-injection configuration branches are left out.
- `extension_list` show, the long statistics texts and sysfs registration are left out.
- The values of the GC mode and policy enumerations come from `f2fs.h`, which is not part of this model.

ipa_intf.c:
- The `ipa_ctx` NULL checks and the `ipa2_register_intf` wrapper are left out: the context exists.
- Mutexes, the wait queue and `wake_up` are left out.
- The free callbacks of message buffers are left out, because buffer ownership is not modelled.
- A cached zero-length CONNECT_EX entry carries no MAC attribute. The source caches it with a NULL `buff` (lines 414-424) and dereferences that NULL `buff` on a later DISCONNECT (lines 450-451); the model treats the entry as non-matching.
- The buffer of a deleted cache entry is not freed in the source. That leak is not modelled.
- `ipa_read`'s blocking loop is modelled as one pass that reports when it would wait.
- IpaIntf.IpaContext.SendMsg: requires that a WLAN CONNECT_EX or DISCONNECT message of a known type comes with its event buffer. The source accepts a NULL buffer with a NULL callback (lines 506-507) and `wlan_msg_process` then dereferences it; that NULL dereference is not modelled.
- IpaIntf.IpaContext.WlanMsgProcess: requires the event buffer of a CONNECT_EX or DISCONNECT message, for the same reason; the source dereferences `buff` without a check.
- IpaIntf.WlanCacheAfter: requires the event buffer of a CONNECT_EX or DISCONNECT message, for the same reason.
- The header values (`IPA_RESOURCE_NAME_MAX`, `IPA_NUM_PROPS_MAX`, the WLAN event numbers, the MAC attribute type) come from `msm_ipa.h`, which is not part of this model.

rhashtable.h:
- The rhltable (`rhlist`) paths, nested bucket tables (and their -ENOMEM), the `future_tbl` resize loop and `rhashtable_insert_slow` are left out. A resize in progress is an input that sends the insert to the slow path.
- jhash and the random seed are a hash-function parameter.
- Walkers are left out.

ss_dsi_panel_debug.c:
- The debugfs and misc-device registration, self-diagnosis, PPS reads, the dynamic MIPI clock table and the image-logging stubs are left out.
- `ss_smmu_debug_log` is left out.
- `vdd` NULL checks are left out.
- The logger that writes xlog entries is left out.
- The panic dump is returned rather than printed.
- `ktime` is a parameter.
- SsPanelDebug.EntryText: the name is a sequence, so a NULL `log->name`, which the kernel's `%s` prints as "(null)" (line 196), is not modelled; the same holds for SsPanelDebug.FormatEntry.
- `ss_xlog_dump_entry`'s `snprintf` can write past `SS_XLOG_BUF_MAX` for some header constants. This is not claimed as a finding, because those constants are parameters here.

trace_irqsoff.c:
- The lock-protected re-check in `check_critical_timing` collapses to one check.
- The preemptirq event stack traces, the function-graph tracer, `display_graph`/`flag_changed` and the print functions are left out.
- The tracepoint hooks are modelled by the forwarding they do.

backing-dev.c:
- `wb_init`'s percpu counter and fprop initialisation is one error input (`initErr`). Its statistics loop only allocates.
- `bdi_get` for a non-root wb is left out.
- `cond_resched` is left out.
- The `wb_congested_get_create` race where another CPU inserts first (the kfree-after-allocation path) is left out.
- Refcount saturation is left out.
- The rb-tree shape is a map from blkcg id to entry.
- `congestion_wait`, and the rest of the file (debugfs, registration, cgroup writeback creation), are left out.
- BackingDev.Bdi.WaitIffCongested: the result of `io_schedule_timeout` is an input (`slept`) when the bdi is congested. Only the uncongested return value is computed.

falcon.c:
- `falcon.h` is not part of this model. The register offsets, bit values and header layouts are those of the upstream header.
- The DMA map/sync/unmap of `falcon_copy_firmware_image` (cache maintenance) is left out. A mapping error there is only logged.
- `readl_poll_timeout` is an input. The result of `falcon_copy_chunk`'s wait is ignored by `falcon_boot`, as in the source.
- `falcon_execute_method` is left out, as is `release_firmware` beyond dropping the blob.
- The buffer starts zeroed. The tail past the last whole word is left zero.
- Falcon.ParseImage: requires that both headers lie inside the buffer (`Readable`). The source reads them without a bounds check.
- Falcon.Falcon.LoadFirmware: requires `Readable` of the copied image, for the same reason.

## Findings

| source | as written | input that shows it | evidently intended | confidence | as-written member | corrected member |
|---|---|---|---|---|---|---|
| drivers/gpu/msm/kgsl.c:128-133 | `kgsl_memfree_find_entry` stops before the slot at `tail`, although that slot is live once the ring has wrapped or holds one entry | one free recorded on a fresh ring (head 1, tail 0), then a fault at the freed address | every live slot from head−1 down to tail is searched | medium, not executed | KgslMemfree.Memfree.FindEntry, KgslMemfree.FirstFreeMissed | KgslMemfree.Memfree.FindEntryLive |
| drivers/gpu/msm/kgsl.c:179-181 | when a new allocation overlaps the start of a recorded free, `gpuaddr` moves forward but `size` is kept, so the entry grows past its end | entry [0x1000, 0x3000) trimmed by an allocation of [0x1000, 0x2000): the entry then matches 0x3800 | the size shrinks by the amount the start moves | medium, not executed | KgslMemfree.PurgeEntry, KgslMemfree.PurgeGrowsEntry | KgslMemfree.PurgeEntryFixed, KgslMemfree.PurgeFixedShrinks, KgslMemfree.Memfree.Purge |
| drivers/base/arch_topology.c:47-53 | the guard is `cpu > nr_cpu_ids`, but `cpumask_first` of an empty mask returns `nr_cpu_ids`, which passes, so `per_cpu(max_cpu_freq, nr_cpu_ids)` is read | `arch_set_max_freq_scale` with an empty mask | `cpu >= nr_cpu_ids` returns for the empty mask | high, not executed | ArchTopology.MaxFreqGuardAsWritten, ArchTopology.EmptyMaskPassesGuard | ArchTopology.MaxFreqGuard, ArchTopology.MaxFreqGuardSound, ArchTopology.Topology.ArchSetMaxFreqScale |
| fs/f2fs/sysfs.c:746-751 | each `sec_fua_mode` entry is printed at `buf`, not `buf + len`, so every entry overwrites the last while `len` sums them all | reading `sec_fua_mode` with mode 0: the buffer holds "ALL " but 16 is returned | each entry is appended at `buf + len` | high, not executed | F2fsSysfs.SbInfo.FuaModeShowAsWritten, F2fsSysfs.FuaShowAsWrittenOvercounts, F2fsSysfs.FuaListingDefault | F2fsSysfs.SbInfo.FuaModeShow |
| fs/f2fs/sysfs.c:979 | writing 3 to `gc_idle` with ATGC enabled stores `GC_AT`, a GC policy whose value equals `GC_IDLE_GREEDY`, so the greedy idle mode is selected | `echo 3 > gc_idle` with ATGC enabled | `GC_IDLE_AT` is stored | medium, not executed | F2fsSysfs.GcIdleModeAsWritten, F2fsSysfs.GcIdleAtSelectsGreedy | F2fsSysfs.GcIdleMode, F2fsSysfs.SbInfo.GcIdleStore |
| drivers/platform/msm/ipa/ipa_v2/ipa_intf.c:113-193 | registration stores the name truncated to 31 characters, but deregistration compares the stored names with the caller's full name | register and then deregister an interface named with 32 or more characters: deregistration returns -EINVAL and the entry stays | deregistration compares with the name as stored | low, not executed | IpaIntf.IpaContext.DeregisterIntfAsWritten, IpaIntf.LongNameNeverFound | IpaIntf.IpaContext.DeregisterIntf, IpaIntf.StoredNameFound |
| drivers/gpu/drm/tegra/falcon.c:164-168 | when the image is rejected, `falcon_load_firmware` frees the buffer but leaves `vaddr` set, so `falcon_exit` frees the same buffer again | an image whose first word is not 0x10de, followed by `falcon_exit` | `vaddr` is set to NULL after the free | medium, not executed | Falcon.Falcon.LoadFirmwareAsWritten, Falcon.DoubleFreeAsWritten | Falcon.Falcon.LoadFirmware, Falcon.SingleFree |

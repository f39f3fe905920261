/**
 * The enlightened-VMCS field table of arch/x86/kvm/vmx_evmcs.h: VMCS
 * field encodings are rotated left by 6 bits to index a sparse array of
 * (offset, clean field) pairs, and get_evmcs_offset looks a field up.
 *
 * The array is built by designated initializers, one EVMCS1_FIELD per
 * listed field; unlisted slots are zero. The byte offsets come from the
 * layout of struct hv_enlightened_vmcs and the clean-field masks from
 * asm/hyperv-tlfs.h, neither of which is part of this model: offsets are
 * a function of the member name given as a parameter, clean fields an
 * enumeration whose zero is CleanNone.
 */
module Evmcs {
  import opened Wrappers

  /** The HV_VMX_ENLIGHTENED_CLEAN_FIELD_* masks the table uses. */
  datatype CleanField =
    | CleanNone | CleanIoBitmap | CleanMsrBitmap
    | CleanControlGrp1 | CleanControlGrp2 | CleanControlProc | CleanControlEvent
    | CleanControlEntry | CleanControlExcpn | CleanCrdr | CleanControlXlat
    | CleanGuestBasic | CleanGuestGrp1 | CleanGuestGrp2
    | CleanHostPointer | CleanHostGrp1 | CleanAll

  /** struct evmcs_field: a u16 offset and a u16 clean-field mask. */
  datatype EvmcsField = EvmcsField(offset: int, cleanField: CleanField)

  /** An unlisted slot of the array: both members zero. */
  const ZeroField: EvmcsField := EvmcsField(0, CleanNone)

  /** One EVMCS1_FIELD(number, name, clean_field) initializer; M names
    * the members of struct hv_enlightened_vmcs. */
  datatype Entry<M> = Entry(number: nat, member: M, cleanField: CleanField)

  // ---------------------------------------------------------------
  // ROL16
  // ---------------------------------------------------------------

  /** ROL16(val, n): val truncated to u16, shifted left by n bits within
    * 16 bits, or-ed with the top n bits shifted down. The two parts hold
    * disjoint bits (the first is a multiple of 2^n, the second below
    * 2^n), so the bitwise or is their sum. */
  function Rol16(val: nat, n: nat): int
    requires 0 < n < 16
  {
    var x := val % U16;
    (x * Pow2(n)) % U16 + x / Pow2(16 - n)
  }

  /** ROL16 by 6 swaps bits 15:10 and bits 9:0: the top six bits come
    * down to 5:0 and the rest moves up to 15:6. */
  lemma Rol16By6(val: nat)
    ensures Rol16(val, 6) == (val % U16 % 1024) * 64 + val % U16 / 1024
    ensures Rol16(val, 6) < U16
  {
    assert Pow2(6) == 64 && Pow2(10) == 1024;
    var x := val % U16;
    assert x * 64 == (x / 1024) * U16 + (x % 1024) * 64;
  }

  /** ROL16 by 10 swaps bits 15:6 and bits 5:0. */
  lemma Rol16By10(val: nat)
    ensures Rol16(val, 10) == (val % U16 % 64) * 1024 + val % U16 / 64
  {
    assert Pow2(10) == 1024 && Pow2(6) == 64;
    var x := val % U16;
    assert x * 1024 == (x / 64) * U16 + (x % 64) * 1024;
  }

  /** The array index of a VMCS field: its bits 9:0 above its bits 15:10. */
  function Index(field: nat): (r: nat)
    ensures r < U16
    ensures r == (field % U16 % 1024) * 64 + field % U16 / 1024
  {
    Rol16By6(field);
    Rol16(field, 6)
  }

  /** The index is a bijection on 16-bit encodings: rotating it by
    * another 10 bits gives the truncated field back. */
  lemma IndexInverse(field: nat)
    ensures Rol16(Index(field), 10) == field % U16
  {
    var x := field % U16;
    var a := x / 1024;
    var b := x % 1024;
    var y := Index(field);
    assert a < 64 && b < 1024 && x == a * 1024 + b;
    assert y == b * 64 + a;
    DivModUnique(y, U16, 0, y);
    DivModUnique(y, 64, b, a);
    Rol16By10(y);
  }

  // ---------------------------------------------------------------
  // The designated-initializer array
  // ---------------------------------------------------------------

  /** The largest index any entry names, or -1 without entries. */
  function MaxIndex<M>(entries: seq<Entry<M>>): (r: int)
    ensures -1 <= r < U16
    ensures forall k :: 0 <= k < |entries| ==> Index(entries[k].number) <= r
    ensures |entries| > 0 ==> exists k :: 0 <= k < |entries| && Index(entries[k].number) == r
    ensures |entries| == 0 ==> r == -1
  {
    if |entries| == 0 then -1
    else
      var m := MaxIndex(entries[..|entries| - 1]);
      var last := Index(entries[|entries| - 1].number);
      assert forall k :: 0 <= k < |entries| - 1 ==> entries[..|entries| - 1][k] == entries[k];
      if last > m then last else m
  }

  /** The value of slot i: the last initializer naming it wins, and a
    * slot no initializer names stays zero. */
  function Slot<M>(entries: seq<Entry<M>>, offsetOf: M -> int, i: int): (r: EvmcsField)
  {
    if |entries| == 0 then ZeroField
    else
      var e := entries[|entries| - 1];
      if Index(e.number) == i then EvmcsField(offsetOf(e.member), e.cleanField)
      else Slot(entries[..|entries| - 1], offsetOf, i)
  }

  /** vmcs_field_to_evmcs_1: as long as the largest index plus one. */
  function Table<M>(entries: seq<Entry<M>>, offsetOf: M -> int): (r: seq<EvmcsField>)
    ensures |r| == MaxIndex(entries) + 1
  {
    seq(MaxIndex(entries) + 1, i => Slot(entries, offsetOf, i))
  }

  /** An initializer not overridden later fills its slot. */
  lemma {:induction false} SlotOfEntry<M>(entries: seq<Entry<M>>, offsetOf: M -> int, k: nat)
    requires k < |entries|
    requires forall j :: k < j < |entries| ==> Index(entries[j].number) != Index(entries[k].number)
    ensures Slot(entries, offsetOf, Index(entries[k].number)) == EvmcsField(offsetOf(entries[k].member), entries[k].cleanField)
    decreases |entries|
  {
    if k < |entries| - 1 {
      var init := entries[..|entries| - 1];
      assert init[k] == entries[k];
      forall j | k < j < |init|
        ensures Index(init[j].number) != Index(init[k].number)
      {
        assert init[j] == entries[j];
      }
      SlotOfEntry(init, offsetOf, k);
    }
  }

  /** A slot that no initializer names holds zero. */
  lemma {:induction false} SlotUnnamed<M>(entries: seq<Entry<M>>, offsetOf: M -> int, i: int)
    requires forall k :: 0 <= k < |entries| ==> Index(entries[k].number) != i
    ensures Slot(entries, offsetOf, i) == ZeroField
    decreases |entries|
  {
    if |entries| > 0 {
      var init := entries[..|entries| - 1];
      forall k | 0 <= k < |init|
        ensures Index(init[k].number) != i
      {
        assert init[k] == entries[k];
      }
      SlotUnnamed(init, offsetOf, i);
    }
  }

  // ---------------------------------------------------------------
  // get_evmcs_offset
  // ---------------------------------------------------------------

  /** Offsets are u16 values. */
  predicate OffsetsOk(table: seq<EvmcsField>)
  {
    forall i :: 0 <= i < |table| ==> 0 <= table[i].offset < U16
  }

  /** get_evmcs_offset(field, clean_field): -ENOENT for an index past the
    * array; otherwise the stored offset, with the stored clean field
    * written through clean_field when that pointer is not NULL (the
    * second component is what was written, None when nothing was). */
  function GetEvmcsOffset(table: seq<EvmcsField>, field: nat, hasCleanField: bool): (r: (int, Option<CleanField>))
    requires OffsetsOk(table)
    ensures r.0 == -ENOENT <==> Index(field) >= |table|
    ensures r.0 >= 0 ==> r.0 == table[Index(field)].offset
    ensures r.1.Some? <==> hasCleanField && r.0 >= 0
    ensures r.1.Some? ==> r.1.value == table[Index(field)].cleanField
  {
    var index := Index(field);
    if index >= |table| then (-ENOENT, None)
    else
      var f := table[index];
      (f.offset, if hasCleanField then Some(f.cleanField) else None)
  }

  /** Looking up a listed field finds its own initializer, unless a later
    * one names the same slot. */
  lemma LookupListed<M>(entries: seq<Entry<M>>, offsetOf: M -> int, k: nat, hasCleanField: bool)
    requires k < |entries|
    requires forall j :: k < j < |entries| ==> Index(entries[j].number) != Index(entries[k].number)
    requires OffsetsOk(Table(entries, offsetOf))
    ensures GetEvmcsOffset(Table(entries, offsetOf), entries[k].number, hasCleanField)
         == (offsetOf(entries[k].member), if hasCleanField then Some(entries[k].cleanField) else None)
  {
    SlotOfEntry(entries, offsetOf, k);
  }

  /** A field past the largest listed index is refused with -ENOENT; a
    * field below it that no initializer names reads offset 0 with no
    * clean-field bits. */
  lemma LookupUnlisted<M>(entries: seq<Entry<M>>, offsetOf: M -> int, field: nat, hasCleanField: bool)
    requires forall k :: 0 <= k < |entries| ==> Index(entries[k].number) != Index(field)
    requires OffsetsOk(Table(entries, offsetOf))
    ensures Index(field) > MaxIndex(entries) ==> GetEvmcsOffset(Table(entries, offsetOf), field, hasCleanField) == (-ENOENT, None)
    ensures Index(field) < MaxIndex(entries) ==>
              GetEvmcsOffset(Table(entries, offsetOf), field, hasCleanField) == (0, if hasCleanField then Some(CleanNone) else None)
  {
    SlotUnnamed(entries, offsetOf, Index(field));
  }

  // ---------------------------------------------------------------
  // The read-only fields
  // ---------------------------------------------------------------

  /** Bits 11:10 of a VMCS field encoding: its type; 1 is VM-exit
    * information, which the guest can only read. */
  function FieldType(number: nat): (r: nat)
    ensures r < 4
  {
    (number / 0x400) % 4
  }

  /** The members of struct hv_enlightened_vmcs the read-only fields use. */
  datatype ReadOnlyMember =
    | GuestPhysicalAddress | ExitQualification | GuestLinearAddress
    | VmInstructionError | VmExitReason | VmExitIntrInfo
    | VmExitIntrErrorCode | IdtVectoringInfoField | IdtVectoringErrorCode
    | VmExitInstructionLen | VmxInstructionInfo

  /** The read-only initializers of vmcs_field_to_evmcs_1, in source
    * order, with the field encodings of arch/x86/include/asm/vmx.h (not
    * part of this model). */
  function ReadOnlyEntry(k: nat): Entry<ReadOnlyMember>
    requires k < 11
  {
    match k
    case 0 => Entry(0x2400, GuestPhysicalAddress, CleanNone)   // GUEST_PHYSICAL_ADDRESS
    case 1 => Entry(0x6400, ExitQualification, CleanNone)      // EXIT_QUALIFICATION
    case 2 => Entry(0x640a, GuestLinearAddress, CleanNone)     // GUEST_LINEAR_ADDRESS
    case 3 => Entry(0x4400, VmInstructionError, CleanNone)     // VM_INSTRUCTION_ERROR
    case 4 => Entry(0x4402, VmExitReason, CleanNone)           // VM_EXIT_REASON
    case 5 => Entry(0x4404, VmExitIntrInfo, CleanNone)         // VM_EXIT_INTR_INFO
    case 6 => Entry(0x4406, VmExitIntrErrorCode, CleanNone)    // VM_EXIT_INTR_ERROR_CODE
    case 7 => Entry(0x4408, IdtVectoringInfoField, CleanNone)  // IDT_VECTORING_INFO_FIELD
    case 8 => Entry(0x440a, IdtVectoringErrorCode, CleanNone)  // IDT_VECTORING_ERROR_CODE
    case 9 => Entry(0x440c, VmExitInstructionLen, CleanNone)   // VM_EXIT_INSTRUCTION_LEN
    case _ => Entry(0x440e, VmxInstructionInfo, CleanNone)     // VMX_INSTRUCTION_INFO
  }

  const ReadOnlyEntries: seq<Entry<ReadOnlyMember>> := seq(11, k requires 0 <= k < 11 => ReadOnlyEntry(k))

  /** Where the read-only fields land: the three 64-bit ones apart, the
    * 32-bit ones 0x80 slots from each other. */
  function ReadOnlySlot(k: nat): nat
    requires k < 11
  {
    if k == 0 then 0x9 else if k == 1 then 0x19 else if k == 2 then 0x299 else 0x11 + 0x80 * (k - 3)
  }

  /** Each read-only entry is of the read-only type and carries no clean
    * bits. */
  lemma ReadOnlyEntryClean(k: nat)
    requires k < 11
    ensures FieldType(ReadOnlyEntry(k).number) == 1
    ensures ReadOnlyEntry(k).cleanField == CleanNone
  {
    match k {
      case 0 => case 1 => case 2 => case 3 => case 4 => case 5 =>
      case 6 => case 7 => case 8 => case 9 => case 10 =>
    }
  }

  /** Each read-only entry sits at its slot. */
  lemma ReadOnlyEntrySlot(k: nat)
    requires k < 11
    ensures Index(ReadOnlyEntry(k).number) == ReadOnlySlot(k)
  {
    var f := ReadOnlyEntry(k).number;
    if k < 3 {
      assert f % 1024 == [0, 0, 0xa][k] && f / 1024 == [0x9, 0x19, 0x19][k];
    } else {
      assert f == 0x4400 + 2 * (k - 3);
      assert f % 1024 == 2 * (k - 3) && f / 1024 == 0x11;
    }
    assert f % U16 == f;
  }

  /** Every read-only field gets its own slot and no clean-field bits:
    * writes to it never need a clean mask reset. */
  lemma ReadOnlyLookup(offsetOf: ReadOnlyMember -> int, k: nat)
    requires k < |ReadOnlyEntries|
    requires OffsetsOk(Table(ReadOnlyEntries, offsetOf))
    ensures FieldType(ReadOnlyEntries[k].number) == 1
    ensures GetEvmcsOffset(Table(ReadOnlyEntries, offsetOf), ReadOnlyEntries[k].number, true)
         == (offsetOf(ReadOnlyEntries[k].member), Some(CleanNone))
  {
    var es := ReadOnlyEntries;
    ReadOnlyEntryClean(k);
    ReadOnlyEntrySlot(k);
    forall j | k < j < |es|
      ensures Index(es[j].number) != Index(es[k].number)
    {
      ReadOnlyEntrySlot(j);
    }
    LookupListed(es, offsetOf, k, true);
  }
}

/** uk_efi_rt_md_to_bi_mrds (plat/kvm/efi.c:295-356): looks the Memory
    Attributes Table of section 4.6 of the UEFI Specification up among the
    configuration tables and turns its runtime entries into kernel regions
    with per-section permissions. */
module EfiMat {
  import opened Common
  import opened EfiBase

  /** EFI_MEMORY_ATTRIBUTES_TABLE: its own descriptor stride and its
      entries (number_of_entries is their count). */
  datatype MemAttrTable = MemAttrTable(descriptorSize: nat, entries: seq<MemDesc>)

  /** One EFI_CONFIGURATION_TABLE entry: either the attribute-table GUID,
      whose vendor table pointer may be NULL, or some other vendor GUID. */
  datatype ConfigEntry = MatEntry(table: Option<MemAttrTable>) | OtherEntry(guid: nat)

  /** The search loop of efi.c:307-318: the first entry carrying the
      attribute-table GUID. None when no entry does. */
  function FindMat(cfg: seq<ConfigEntry>): (r: Option<Option<MemAttrTable>>)
    ensures r.None? <==> forall i :: 0 <= i < |cfg| ==> !cfg[i].MatEntry?
    ensures r.Some? ==>
              exists i :: 0 <= i < |cfg| && cfg[i] == MatEntry(r.value)
                          && forall j :: 0 <= j < i ==> !cfg[j].MatEntry?
    decreases |cfg|
  {
    if cfg == [] then None
    else if cfg[0].MatEntry? then Some(cfg[0].table)
    else
      var r := FindMat(cfg[1..]);
      if r.Some? then
        var i :| 0 <= i < |cfg[1..]| && cfg[1..][i] == MatEntry(r.value)
                 && forall j :: 0 <= j < i ==> !cfg[1..][j].MatEntry?;
        assert cfg[i + 1] == MatEntry(r.value);
        assert forall j :: 0 <= j < i + 1 ==> !cfg[j].MatEntry? by {
          forall j | 0 <= j < i + 1
            ensures !cfg[j].MatEntry?
          {
            if j > 0 {
              assert cfg[j] == cfg[1..][j - 1];
            }
          }
        }
        r
      else
        assert forall i :: 1 <= i < |cfg| ==> cfg[i] == cfg[1..][i - 1];
        r
  }

  predicate IsRuntime(md: MemDesc)
  {
    md.attribute & EFI_MEMORY_RUNTIME != 0
  }

  /** The permissions efi.c:343-352 derive: execute-protected and read-only
      is READ, execute-protected and writable is READ|WRITE, anything not
      execute-protected is treated as code, READ|EXECUTE. */
  function RtPerms(attribute: bv64): (p: set<MemFlag>)
    ensures Read in p && Map !in p
    ensures Write in p <==> attribute & EFI_MEMORY_XP != 0 && attribute & EFI_MEMORY_RO == 0
    ensures Execute in p <==> attribute & EFI_MEMORY_XP == 0
  {
    if attribute & EFI_MEMORY_XP != 0 then
      if attribute & EFI_MEMORY_RO != 0 then {Read} else {Read, Write}
    else {Read, Execute}
  }

  /** The region one runtime entry becomes: reserved, identity-mapped at its
      physical start, number_of_pages * EFI_PAGE_SIZE long (a 64-bit size),
      mapped, with the derived permissions. */
  function RtRegion(md: MemDesc): (r: MemRegion)
    ensures r.rtype == Reserved && r.pbase == r.vbase == md.physStart
    ensures r.len == (md.numPages * EFI_PAGE_SIZE) % U64_LIMIT
    ensures r.flags == {Map} + RtPerms(md.attribute)
  {
    MemRegion(md.physStart, md.physStart, (md.numPages * EFI_PAGE_SIZE) % U64_LIMIT,
              Reserved, {Map} + RtPerms(md.attribute))
  }

  /** The flags of an attribute-table region never combine WRITE with
      EXECUTE: the table restores W^X for runtime services. */
  lemma RtRegionWriteXorExecute(md: MemDesc)
    ensures !(Write in RtRegion(md).flags && Execute in RtRegion(md).flags)
    ensures Map in RtRegion(md).flags && Read in RtRegion(md).flags
  {
  }

  /** A slot of the rt_mrds pool: written by the loop, or left as
      allocate_pool returned it. */
  datatype Slot = Written(mrd: MemRegion) | Unwritten

  /** The first index at or after i whose entry is not a runtime entry (or
      the end of the table). */
  function RuntimeRun(entries: seq<MemDesc>, i: nat): (p: nat)
    requires i <= |entries|
    ensures i <= p <= |entries|
    ensures forall j :: i <= j < p ==> IsRuntime(entries[j])
    ensures p < |entries| ==> !IsRuntime(entries[p])
    decreases |entries| - i
  {
    if i == |entries| || !IsRuntime(entries[i]) then i else RuntimeRun(entries, i + 1)
  }

  /** The conversion loop of efi.c:334-355 from slot i on, with mat_md at
      entry `cursor`. `continue` on a non-runtime entry skips the cursor
      advance, so once the cursor rests on such an entry it stays there and
      every later slot is skipped as well. */
  function FillSlots(entries: seq<MemDesc>, i: nat, cursor: nat): (s: seq<Slot>)
    requires cursor <= i <= |entries|
    requires cursor == i || !IsRuntime(entries[cursor])
    ensures |s| == |entries| - i
    ensures cursor == i ==>
              forall k :: 0 <= k < |s| ==>
                s[k] == (if i + k < RuntimeRun(entries, i) then Written(RtRegion(entries[i + k])) else Unwritten)
    ensures cursor < i ==> forall k :: 0 <= k < |s| ==> s[k] == Unwritten
    decreases |entries| - i
  {
    if i == |entries| then []
    else if !IsRuntime(entries[cursor]) then [Unwritten] + FillSlots(entries, i + 1, cursor)
    else [Written(RtRegion(entries[cursor]))] + FillSlots(entries, i + 1, cursor + 1)
  }

  /** The rt_mrds pool after the loop, as written: slot k holds the region
      of entry k while k is inside the leading run of runtime entries, and
      every slot from the first non-runtime entry on stays unwritten, even
      where a later entry is a runtime entry. */
  function MatSlots(entries: seq<MemDesc>): (s: seq<Slot>)
    ensures |s| == |entries|
    ensures forall k :: 0 <= k < |s| ==>
              s[k] == (if k < RuntimeRun(entries, 0) then Written(RtRegion(entries[k])) else Unwritten)
  {
    FillSlots(entries, 0, 0)
  }

  /** A table whose first entry is not a runtime entry yields no region at
      all, even for the runtime entry behind it. */
  lemma MatCursorStalls(other: MemDesc, rt: MemDesc)
    requires !IsRuntime(other) && IsRuntime(rt)
    ensures MatSlots([other, rt]) == [Unwritten, Unwritten]
  {
  }

  /** The conversion with the cursor advanced on every entry and only the
      runtime entries contributing: one region per runtime entry, in table
      order, and no region from anything else. */
  function IntendedRtRegions(entries: seq<MemDesc>): (rs: seq<MemRegion>)
    ensures |rs| <= |entries|
    ensures forall md :: md in entries && IsRuntime(md) ==> RtRegion(md) in rs
    ensures forall r :: r in rs ==> exists md :: md in entries && IsRuntime(md) && r == RtRegion(md)
    decreases |entries|
  {
    if entries == [] then []
    else
      var rest := IntendedRtRegions(entries[1..]);
      assert forall md :: md in entries[1..] ==> md in entries;
      assert forall md :: md in entries ==> md == entries[0] || md in entries[1..];
      if IsRuntime(entries[0]) then [RtRegion(entries[0])] + rest else rest
  }

  /** The runtime entries after a stalled cursor are exactly what the
      corrected loop recovers. */
  lemma IntendedRecoversStalledEntries(other: MemDesc, rt: MemDesc)
    requires !IsRuntime(other) && IsRuntime(rt)
    ensures IntendedRtRegions([other, rt]) == [RtRegion(rt)]
  {
  }

  /** On a table of runtime entries only, which is what section 4.6 of the
      UEFI Specification prescribes, the loop as written and the corrected
      one agree slot for slot. */
  lemma AllRuntimeTablesAgree(entries: seq<MemDesc>)
    requires forall k :: 0 <= k < |entries| ==> IsRuntime(entries[k])
    ensures |MatSlots(entries)| == |IntendedRtRegions(entries)|
    ensures forall k :: 0 <= k < |entries| ==> MatSlots(entries)[k] == Written(IntendedRtRegions(entries)[k])
  {
    assert RuntimeRun(entries, 0) == |entries|;
    IntendedAllRuntime(entries);
  }

  lemma {:induction false} IntendedAllRuntime(entries: seq<MemDesc>)
    requires forall k :: 0 <= k < |entries| ==> IsRuntime(entries[k])
    ensures |IntendedRtRegions(entries)| == |entries|
    ensures forall k :: 0 <= k < |entries| ==> IntendedRtRegions(entries)[k] == RtRegion(entries[k])
    decreases |entries|
  {
    if entries != [] {
      IntendedAllRuntime(entries[1..]);
    }
  }

  /** What the lookup leaves for uk_efi_setup_bootinfo_mrds: whether the
      table's GUID was found (uk_efi_mat_present), the slot count
      (rt_mrds_count) and the pool, None when rt_mrds was never assigned. */
  datatype Overlay = Overlay(matPresent: bool, count: nat, pool: Option<seq<Slot>>)

  /** uk_efi_rt_md_to_bi_mrds. Without the GUID the flag stays clear and the
      count 0; with the GUID but a NULL table the flag is set and the count
      stays 0; with a table the pool is allocated for number_of_entries
      regions (a failure is fatal) and filled by the loop above. */
  function RtMdToBiMrds(cfg: seq<ConfigEntry>, poolStatus: Status): (o: Outcome<Overlay>)
    ensures o.Done? ==> (o.value.matPresent <==> exists i :: 0 <= i < |cfg| && cfg[i].MatEntry?)
    ensures o.Done? && !o.value.matPresent ==> o.value.count == 0 && o.value.pool.None? && o.calls == []
    ensures o.Done? && o.value.pool.Some? ==>
              && FindMat(cfg).Some? && FindMat(cfg).value.Some?
              && o.value.count == |FindMat(cfg).value.value.entries| == |o.value.pool.value|
              && o.calls == [AllocatePool(RtMrdsPool, o.value.count)]
    ensures o.Done? && o.value.matPresent && o.value.pool.None? ==> FindMat(cfg) == Some(None) && o.calls == []
    ensures o.Done? && o.value.pool.None? ==> o.value.count == 0
    ensures o.Done? ==> |PoolSlots(o.value)| == o.value.count
    ensures o.Done? && o.value.pool.Some? ==> o.value.pool.value == MatSlots(FindMat(cfg).value.value.entries)
    ensures o.Crashed? <==> FindMat(cfg).Some? && FindMat(cfg).value.Some? && poolStatus != Success
    ensures o.Crashed? ==>
              && FindMat(cfg).Some? && FindMat(cfg).value.Some?
              && o.site == MatAlloc && o.calls == [AllocatePool(RtMrdsPool, |FindMat(cfg).value.value.entries|)]
  {
    match FindMat(cfg)
    case None => Done(Overlay(false, 0, None), [])
    case Some(None) => Done(Overlay(true, 0, None), [])
    case Some(Some(mat)) =>
      var count := |mat.entries|;
      var calls := [AllocatePool(RtMrdsPool, count)];
      if poolStatus != Success then Crashed(calls, MatAlloc)
      else Done(Overlay(true, count, Some(MatSlots(mat.entries))), calls)
  }

  /** The slots uk_efi_setup_bootinfo_mrds walks: the pool, or nothing
      when rt_mrds was never assigned. */
  function PoolSlots(ov: Overlay): seq<Slot>
  {
    if ov.pool.Some? then ov.pool.value else []
  }

  /** A table of runtime entries only, as section 4.6 of the UEFI
      Specification prescribes. */
  predicate RuntimeOnly(mat: MemAttrTable)
  {
    forall k :: 0 <= k < |mat.entries| ==> IsRuntime(mat.entries[k])
  }

  /** The lookup with the corrected conversion: the same search, the same
      allocation and crash, and then one region per runtime entry. */
  datatype RtRegions = RtRegions(matPresent: bool, pooled: bool, regions: seq<MemRegion>)

  function RtMdToBiMrdsIntended(cfg: seq<ConfigEntry>, poolStatus: Status): (o: Outcome<RtRegions>)
    ensures o.Done? ==> (o.value.matPresent <==> exists i :: 0 <= i < |cfg| && cfg[i].MatEntry?)
    ensures o.Done? ==> (o.value.pooled <==> FindMat(cfg).Some? && FindMat(cfg).value.Some?)
    ensures o.Done? && o.value.pooled ==>
              && o.calls == [AllocatePool(RtMrdsPool, |FindMat(cfg).value.value.entries|)]
              && o.value.regions == IntendedRtRegions(FindMat(cfg).value.value.entries)
    ensures o.Done? && !o.value.pooled ==> o.value.regions == [] && o.calls == []
    ensures o.Crashed? <==> RtMdToBiMrds(cfg, poolStatus).Crashed?
    ensures o.Crashed? ==> o.site == MatAlloc && o.calls == RtMdToBiMrds(cfg, poolStatus).calls
    ensures o.Done? ==> RtMdToBiMrds(cfg, poolStatus).calls == o.calls
  {
    match FindMat(cfg)
    case None => Done(RtRegions(false, false, []), [])
    case Some(None) => Done(RtRegions(true, false, []), [])
    case Some(Some(mat)) =>
      var calls := [AllocatePool(RtMrdsPool, |mat.entries|)];
      if poolStatus != Success then Crashed(calls, MatAlloc)
      else Done(RtRegions(true, true, IntendedRtRegions(mat.entries)), calls)
  }
}

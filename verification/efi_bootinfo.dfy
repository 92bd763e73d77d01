/** Assembly of the boot record (plat/kvm/efi.c:358-410, 506-686): the
    fixed order in which uk_efi_setup_bootinfo fills in the command line,
    initrd, device tree and memory regions, the reset-attack mitigation
    that runs before it, and uk_efi_main which strings them together. */
module EfiBootinfo {
  import opened Common
  import opened EfiBase
  import opened EfiStrings
  import opened EfiMemMap
  import opened EfiMat
  import opened EfiExitBs
  import opened EfiPayload

  /** What happens to the kernel's region list, in order. The list itself
      (ukplat_memregion_list_*) is not part of this model: an insert is
      logged, and fails when the list has no room left. */
  datatype ListOp = Insert(mrd: MemRegion) | InsertIndeterminate | LegacyHole | Coalesce | SipiReserve

  datatype RegionList = RegionList(ops: seq<ListOp>, room: nat)

  /** ukplat_memregion_list_insert: -ENOMEM on a full list. */
  function ListInsert(l: RegionList, r: MemRegion): (res: Option<RegionList>)
    ensures res.None? <==> l.room == 0
    ensures res.Some? ==> res.value == RegionList(l.ops + [Insert(r)], l.room - 1)
  {
    if l.room == 0 then None else Some(RegionList(l.ops + [Insert(r)], l.room - 1))
  }

  /** The operations that insert rs, one each, in order. */
  function Inserts(rs: seq<MemRegion>): (ops: seq<ListOp>)
    ensures |ops| == |rs|
    ensures forall op :: op in ops ==> op.Insert?
  {
    if rs == [] then [] else [Insert(rs[0])] + Inserts(rs[1..])
  }

  /** Inserting regions one after the other, stopping at the first failure. */
  function InsertAll(l: RegionList, rs: seq<MemRegion>): (res: Option<RegionList>)
    ensures res.None? <==> |rs| > l.room
    ensures res.Some? ==> res.value == RegionList(l.ops + Inserts(rs), l.room - |rs|)
    decreases |rs|
  {
    if rs == [] then
      assert l.ops + Inserts(rs) == l.ops;
      Some(l)
    else if l.room == 0 then None
    else
      var l1 := RegionList(l.ops + [Insert(rs[0])], l.room - 1);
      assert l1.ops + Inserts(rs[1..]) == l.ops + Inserts(rs) by {
        assert Inserts(rs) == [Insert(rs[0])] + Inserts(rs[1..]);
      }
      InsertAll(l1, rs[1..])
  }

  /** Build-time configuration: the architecture (x86-64 inserts the legacy
      high-memory hole and the SIPI vector), the reset-attack mitigation
      toggle, paging support (which decides the allocation type), the
      allocation ceiling (the end of the boot page tables' unmapped
      region), and the three configured file names, empty when unset. */
  datatype Config = Config(x86: bool, rstAtkMitigation: bool, paging: bool, allocCeiling: nat,
                           cmdlineFname: seq<byte>, initrdFname: seq<byte>, dtbFname: seq<byte>)

  /** uk_efi_alloc_type and uk_efi_alloc_max_paddr (efi.c:13-20, 138). */
  function Policy(cfg: Config): (p: AllocPolicy)
    ensures p.ceiling == cfg.allocCeiling
    ensures p.allocType == AnyPages <==> cfg.paging
  {
    AllocPolicy(if cfg.paging then AnyPages else MaxAddress, cfg.allocCeiling)
  }

  /** Every firmware reply of a run, by call site. */
  datatype Firmware = Firmware(
    selfHandle: nat, systemTable: nat, image: ImageReply,
    cmdlAlloc: OptionsAlloc, cmdlFile: FileScript, initrdFile: FileScript, dtbFile: FileScript,
    configTables: seq<ConfigEntry>, rtPool: Status, rtFree: Status,
    exit: ExitScript, morGet: Status, morSet: Status)

  /** What the kernel side supplies: whether ukplat_bootinfo_get finds a
      boot record, the room in its region list, and whether the SIPI vector
      allocation succeeds. */
  datatype Kernel = Kernel(hasBootinfo: bool, room: nat, sipiOk: bool)

  /** struct ukplat_bootinfo as the stub fills it in. */
  datatype BootInfo = BootInfo(bootloader: string, bootprotocol: string, cmdline: nat, cmdlineLen: nat,
                               dtb: nat, efiSt: nat, mrds: RegionList)

  /** The conditions the model needs of its inputs: configured names are C
      strings, Read delivers no more than it was asked for, and the memory
      at a non-NULL LoadOptions pointer is readable up to the conversion's
      bound. */
  predicate InputsOk(cfg: Config, fw: Firmware)
  {
    && NulFree(cfg.cmdlineFname) && NulFree(cfg.initrdFname) && NulFree(cfg.dtbFname)
    && |fw.cmdlFile.content| <= fw.cmdlFile.fileSize
    && |fw.initrdFile.content| <= fw.initrdFile.fileSize
    && |fw.dtbFile.content| <= fw.dtbFile.fileSize
    && OptionsReadable(fw.image.image)
  }

  /** The record and the cached loaded image between the setup steps. */
  datatype Stage = Stage(bi: BootInfo, cache: Option<LoadedImage>)

  predicate CacheOk(st: Stage, fw: Firmware)
  {
    st.cache.None? || st.cache.value == fw.image.image
  }

  /** The region a loaded payload occupies: identity-mapped, readable,
      mapped, and typed so that the kernel never reclaims it as free. */
  function PayloadRegion(base: nat, len: nat, t: RegionType): (r: MemRegion)
    requires t in {Cmdline, Initrd, DeviceTree}
    ensures r.rtype != Free && r.rtype != Reserved
    ensures r.pbase == r.vbase == base && r.len == len && r.flags == {Read, Map}
  {
    MemRegion(base, base, len, t, {Read, Map})
  }

  /** The command line this run obtains: the loaded image is the one the
      firmware reports, whether it was cached or looked up. */
  function LoadedCmdline(cfg: Config, fw: Firmware): Outcome<Option<CommandLine>>
    requires InputsOk(cfg, fw)
  {
    LoadCmdline(fw.image.image, cfg.cmdlineFname, Policy(cfg), fw.cmdlAlloc, fw.cmdlFile)
  }

  /** The CMDLINE region a command line is recorded with, if there is one. */
  function CmdlineOps(cl: Option<CommandLine>): seq<ListOp>
  {
    if cl.Some? then [Insert(PayloadRegion(cl.value.base, cl.value.len, Cmdline))] else []
  }

  /** uk_efi_setup_bootinfo_cmdl (efi.c:506-559): look the image up, obtain
      the command line, and when there is one record it with a CMDLINE
      region. Nothing else in the record changes. */
  function SetupCmdl(st: Stage, cfg: Config, fw: Firmware): (o: Outcome<Stage>)
    requires InputsOk(cfg, fw) && CacheOk(st, fw)
    ensures o.Done? <==>
              && (st.cache.Some? || fw.image.status == Success) && LoadedCmdline(cfg, fw).Done?
              && (LoadedCmdline(cfg, fw).value.Some? ==> st.bi.mrds.room > 0)
    ensures o.Done? ==> CacheOk(o.value, fw) && o.value.cache.Some?
    ensures o.Done? ==> o.value.bi.mrds.room + |o.value.bi.mrds.ops| == st.bi.mrds.room + |st.bi.mrds.ops|
    ensures o.Done? ==> o.value.bi.(cmdline := st.bi.cmdline, cmdlineLen := st.bi.cmdlineLen, mrds := st.bi.mrds) == st.bi
    ensures o.Done? ==>
              var cl := LoadedCmdline(cfg, fw).value;
              && o.value.bi.mrds.ops == st.bi.mrds.ops + CmdlineOps(cl)
              && (cl.None? ==> o.value.bi == st.bi)
              && (cl.Some? ==> o.value.bi.cmdline == cl.value.base != 0 && o.value.bi.cmdlineLen == cl.value.len)
    ensures o.Crashed? ==> !KernelCrash(o.site)
  {
    var h := GetUkImgHndl(st.cache, fw.selfHandle, fw.image);
    if h.Crashed? then Crashed(h.calls, h.site)
    else
      LoadCmdlineCrashSites(h.value, cfg.cmdlineFname, Policy(cfg), fw.cmdlAlloc, fw.cmdlFile);
      After(h.calls, RecordCmdline(st.bi, h.value,
                                   LoadCmdline(h.value, cfg.cmdlineFname, Policy(cfg), fw.cmdlAlloc, fw.cmdlFile)))
  }

  /** The tail of uk_efi_setup_bootinfo_cmdl (efi.c:545-558), given how
      obtaining the command line went: a buffer is recorded, with its
      CMDLINE region; a NULL buffer leaves the record alone. */
  function RecordCmdline(bi: BootInfo, img: LoadedImage, loaded: Outcome<Option<CommandLine>>): (o: Outcome<Stage>)
    requires loaded.Crashed? ==> !KernelCrash(loaded.site)
    requires loaded.Done? && loaded.value.Some? ==> loaded.value.value.base != 0
    ensures o.calls == loaded.calls
    ensures o.Done? ==> o.value.cache == Some(img)
    ensures o.Done? ==> o.value.bi.mrds.room + |o.value.bi.mrds.ops| == bi.mrds.room + |bi.mrds.ops|
    ensures o.Done? ==> o.value.bi.(cmdline := bi.cmdline, cmdlineLen := bi.cmdlineLen, mrds := bi.mrds) == bi
    ensures o.Done? ==>
              || (loaded.Done? && loaded.value.None? && o.value.bi == bi)
              || (&& loaded.Done? && loaded.value.Some?
                  && o.value.bi.cmdline == loaded.value.value.base != 0
                  && o.value.bi.cmdlineLen == loaded.value.value.len
                  && o.value.bi.mrds.ops == bi.mrds.ops
                       + [Insert(PayloadRegion(o.value.bi.cmdline, o.value.bi.cmdlineLen, Cmdline))])
    ensures loaded.Done? && loaded.value.Some? ==> (o.Done? <==> bi.mrds.room > 0)
    ensures o.Crashed? ==> !KernelCrash(o.site)
  {
    if loaded.Crashed? then Crashed(loaded.calls, loaded.site)
    else if loaded.value.None? then Done(Stage(bi, Some(img)), loaded.calls)
    else
      var cl := loaded.value.value;
      var inserted := ListInsert(bi.mrds, PayloadRegion(cl.base, cl.len, Cmdline));
      if inserted.None? then Crashed(loaded.calls, CmdlInsert)
      else Done(Stage(bi.(mrds := inserted.value, cmdline := cl.base, cmdlineLen := cl.len), Some(img)), loaded.calls)
  }

  /** What a payload step leaves: the next stage and the buffer it loaded
      (0 when the step was skipped). */
  datatype Loaded = Loaded(st: Stage, base: nat)

  /** The region an initrd or device-tree step inserts: one when a name is
      configured, none otherwise. */
  function FileOps(name: seq<byte>, script: FileScript, t: RegionType): seq<ListOp>
    requires t in {Initrd, DeviceTree}
  {
    if |name| > 0 then [Insert(PayloadRegion(script.base, |script.content|, t))] else []
  }

  /** A payload step's file is read in full: no name is configured, or the
      read succeeds and the path is accepted. */
  predicate PayloadReadable(name: seq<byte>, script: FileScript)
  {
    |name| == 0 || (ReadSucceeds(script) && |name| + 10 < UK_EFI_MAXPATHLEN / 2)
  }

  /** The common body of uk_efi_setup_bootinfo_initrd and _dtb
      (efi.c:561-615): nothing happens when no file name is configured;
      otherwise the image is looked up, the file read and its buffer
      recorded with a region of type t. */
  function LoadPayload(st: Stage, name: seq<byte>, fw: Firmware, pol: AllocPolicy, script: FileScript,
                       t: RegionType, site: Fatal): (o: Outcome<Loaded>)
    requires NulFree(name) && |script.content| <= script.fileSize && CacheOk(st, fw)
    requires site == InitrdInsert || site == DtbInsert
    requires t in {Initrd, DeviceTree}
    ensures |name| == 0 ==> o == Done(Loaded(st, 0), [])
    ensures o.Done? <==>
              || |name| == 0
              || ((st.cache.Some? || fw.image.status == Success) && PayloadReadable(name, script) && st.bi.mrds.room > 0)
    ensures o.Crashed? && o.site == site <==>
              && |name| > 0 && (st.cache.Some? || fw.image.status == Success) && PayloadReadable(name, script)
              && st.bi.mrds.room == 0
    ensures o.Done? && |name| > 0 ==> o.value.st.cache.Some?
    ensures o.Done? ==> o.value.st.bi.mrds.room + |o.value.st.bi.mrds.ops| == st.bi.mrds.room + |st.bi.mrds.ops|
    ensures o.Done? ==> CacheOk(o.value.st, fw) && o.value.st.bi.(mrds := st.bi.mrds) == st.bi
    ensures o.Done? ==> o.value.st.bi.mrds.ops == st.bi.mrds.ops + FileOps(name, script, t)
    ensures o.Done? && |name| > 0 ==> o.value.base == script.base
    ensures o.Crashed? ==> !KernelCrash(o.site)
  {
    if |name| == 0 then Done(Loaded(st, 0), [])
    else
      var h := GetUkImgHndl(st.cache, fw.selfHandle, fw.image);
      if h.Crashed? then Crashed(h.calls, h.site)
      else After(h.calls, RecordPayload(st, h.value, ReadBootFile(h.value.deviceHandle, name, pol, script), t, site))
  }

  /** The tail of a payload step, given how the read went: the buffer is
      recorded with a region of type t, and a full list stops at site. */
  function RecordPayload(st: Stage, img: LoadedImage, read: Outcome<FileData>, t: RegionType, site: Fatal): (o: Outcome<Loaded>)
    requires read.Crashed? ==> ReadSite(read.site)
    requires site == InitrdInsert || site == DtbInsert
    requires t in {Initrd, DeviceTree}
    ensures o.calls == read.calls
    ensures o.Done? <==> read.Done? && st.bi.mrds.room > 0
    ensures o.Crashed? && o.site == site <==> read.Done? && st.bi.mrds.room == 0
    ensures o.Crashed? ==> !KernelCrash(o.site)
    ensures o.Done? ==>
              o.value == Loaded(Stage(st.bi.(mrds := RegionList(st.bi.mrds.ops + [Insert(PayloadRegion(read.value.base, read.value.len, t))],
                                                                st.bi.mrds.room - 1)), Some(img)),
                                read.value.base)
  {
    if read.Crashed? then Crashed(read.calls, read.site)
    else if st.bi.mrds.room == 0 then Crashed(read.calls, site)
    else
      var r := PayloadRegion(read.value.base, read.value.len, t);
      Done(Loaded(Stage(st.bi.(mrds := RegionList(st.bi.mrds.ops + [Insert(r)], st.bi.mrds.room - 1)), Some(img)),
                  read.value.base), read.calls)
  }

  /** uk_efi_setup_bootinfo_initrd then uk_efi_setup_bootinfo_dtb: each
      appends its region when its name is configured; only the device tree
      sets a record field. */
  function LoadFiles(st: Stage, cfg: Config, fw: Firmware): (o: Outcome<BootInfo>)
    requires InputsOk(cfg, fw) && CacheOk(st, fw)
    ensures o.Done? ==> o.value.(mrds := st.bi.mrds, dtb := st.bi.dtb) == st.bi
    ensures o.Done? ==>
              o.value.mrds.ops == st.bi.mrds.ops + FileOps(cfg.initrdFname, fw.initrdFile, Initrd)
                                    + FileOps(cfg.dtbFname, fw.dtbFile, DeviceTree)
    ensures o.Done? ==> o.value.dtb == (if |cfg.dtbFname| > 0 then fw.dtbFile.base else st.bi.dtb)
    ensures o.Done? <==>
              && (|cfg.initrdFname| + |cfg.dtbFname| == 0 || st.cache.Some? || fw.image.status == Success)
              && PayloadReadable(cfg.initrdFname, fw.initrdFile) && PayloadReadable(cfg.dtbFname, fw.dtbFile)
              && |FileOps(cfg.initrdFname, fw.initrdFile, Initrd)| + |FileOps(cfg.dtbFname, fw.dtbFile, DeviceTree)|
                   <= st.bi.mrds.room
    ensures o.Done? ==> o.value.mrds.room + |o.value.mrds.ops| == st.bi.mrds.room + |st.bi.mrds.ops|
    ensures o.Crashed? ==> !KernelCrash(o.site)
  {
    var pol := Policy(cfg);
    match LoadPayload(st, cfg.initrdFname, fw, pol, fw.initrdFile, Initrd, InitrdInsert)
    case Crashed(c, f) => Crashed(c, f)
    case Done(ld2, c2) =>
      match LoadPayload(ld2.st, cfg.dtbFname, fw, pol, fw.dtbFile, DeviceTree, DtbInsert)
      case Crashed(c, f) => Crashed(c2 + c, f)
      case Done(ld3, c3) =>
        Done(if |cfg.dtbFname| > 0 then ld3.st.bi.(dtb := ld3.base) else ld3.st.bi, c2 + c3)
  }

  /** The region-list part of uk_efi_setup_bootinfo_mrds (efi.c:358-410)
      from the legacy hole up to the memory-map snapshot: the legacy
      high-memory hole (x86-64), the attribute-table regions, and the
      release of the rt_mrds pool. Without a table that pool pointer was
      never assigned, and it is released all the same. */
  function SetupRtMrds(l: RegionList, x86: bool, rt: Outcome<RtRegions>, rtFree: Status): (o: Outcome<(RegionList, bool)>)
    ensures x86 && l.room == 0 ==> o == Crashed([], LegacyHiMem)
    ensures o.Done? <==>
              && (!x86 || l.room > 0) && rt.Done?
              && |rt.value.regions| <= l.room - (if x86 then 1 else 0) && rtFree == Success
    ensures o.Done? ==>
              && o.value.1 == rt.value.matPresent
              && o.value.0.ops == l.ops + (if x86 then [LegacyHole] else []) + Inserts(rt.value.regions)
              && o.calls == rt.calls + [FreePool(if rt.value.pooled then RtMrdsPool else IndeterminatePointer)]
    ensures o.Done? ==> o.value.0.room == l.room - (if x86 then 1 else 0) - |rt.value.regions|
    ensures o.Crashed? && KernelCrash(o.site) ==> rt.Crashed? && o.site == rt.site
  {
    if x86 && l.room == 0 then Crashed([], LegacyHiMem)
    else
      var legacy := if x86 then RegionList(l.ops + [LegacyHole], l.room - 1) else l;
      if rt.Crashed? then Crashed(rt.calls, rt.site)
      else
        var inserted := InsertAll(legacy, rt.value.regions);
        if inserted.None? then Crashed(rt.calls, RtInsert)
        else
          var free := rt.calls + [FreePool(if rt.value.pooled then RtMrdsPool else IndeterminatePointer)];
          if rtFree != Success then Crashed(free, FreeRtMrds)
          else Done((inserted.value, rt.value.matPresent), free)
  }

  /** The operations inserting the rt_mrds slots one by one: a written slot
      inserts its region, a slot the conversion loop skipped inserts
      whatever allocate_pool left in it (InsertIndeterminate). */
  function SlotOps(slots: seq<Slot>): (ops: seq<ListOp>)
    ensures |ops| == |slots|
    ensures forall op :: op in ops ==> op.Insert? || op.InsertIndeterminate?
  {
    if slots == [] then []
    else [if slots[0].Written? then Insert(slots[0].mrd) else InsertIndeterminate] + SlotOps(slots[1..])
  }

  /** Slot k inserts its region when written, an indeterminate one
      otherwise. */
  lemma {:induction false} SlotOpsPerSlot(slots: seq<Slot>)
    ensures forall k :: 0 <= k < |slots| ==>
              && (slots[k].Written? ==> SlotOps(slots)[k] == Insert(slots[k].mrd))
              && (slots[k].Unwritten? ==> SlotOps(slots)[k] == InsertIndeterminate)
    decreases |slots|
  {
    if slots != [] {
      SlotOpsPerSlot(slots[1..]);
      assert forall k :: 1 <= k < |slots| ==> SlotOps(slots)[k] == SlotOps(slots[1..])[k - 1];
    }
  }

  /** The insertion loop of efi.c:375-379 as written: every slot is
      inserted, stopping at the first failure. */
  function InsertSlots(l: RegionList, slots: seq<Slot>): (res: Option<RegionList>)
    ensures res.None? <==> |slots| > l.room
    ensures res.Some? ==> res.value == RegionList(l.ops + SlotOps(slots), l.room - |slots|)
    decreases |slots|
  {
    if slots == [] then
      assert l.ops + SlotOps(slots) == l.ops;
      Some(l)
    else if l.room == 0 then None
    else
      var l1 := RegionList(l.ops + SlotOps(slots[..1]), l.room - 1);
      assert l1.ops + SlotOps(slots[1..]) == l.ops + SlotOps(slots) by {
        assert SlotOps(slots) == SlotOps(slots[..1]) + SlotOps(slots[1..]);
      }
      InsertSlots(l1, slots[1..])
  }

  /** SetupRtMrds over the attribute-table lookup as written: all
      rt_mrds_count slots are inserted, those the stalled loop never wrote
      included, so the stage fails exactly when the count exceeds the room
      left after the hole. */
  function SetupRtMrdsAsWritten(l: RegionList, x86: bool, rt: Outcome<Overlay>, rtFree: Status): (o: Outcome<(RegionList, bool)>)
    requires rt.Done? ==> |PoolSlots(rt.value)| == rt.value.count
    ensures x86 && l.room == 0 ==> o == Crashed([], LegacyHiMem)
    ensures o.Done? <==>
              && (!x86 || l.room > 0) && rt.Done?
              && rt.value.count <= l.room - (if x86 then 1 else 0) && rtFree == Success
    ensures o.Done? ==>
              && o.value.1 == rt.value.matPresent
              && |o.value.0.ops| == |l.ops| + (if x86 then 1 else 0) + rt.value.count
              && o.value.0.ops == l.ops + (if x86 then [LegacyHole] else []) + SlotOps(PoolSlots(rt.value))
              && o.calls == rt.calls + [FreePool(if rt.value.pool.Some? then RtMrdsPool else IndeterminatePointer)]
    ensures o.Crashed? && KernelCrash(o.site) ==> rt.Crashed? && o.site == rt.site
  {
    if x86 && l.room == 0 then Crashed([], LegacyHiMem)
    else
      var legacy := if x86 then RegionList(l.ops + [LegacyHole], l.room - 1) else l;
      if rt.Crashed? then Crashed(rt.calls, rt.site)
      else
        var inserted := InsertSlots(legacy, PoolSlots(rt.value));
        if inserted.None? then Crashed(rt.calls, RtInsert)
        else
          var free := rt.calls + [FreePool(if rt.value.pool.Some? then RtMrdsPool else IndeterminatePointer)];
          if rtFree != Success then Crashed(free, FreeRtMrds)
          else Done((inserted.value, rt.value.matPresent), free)
  }

  /** The table of the attribute-table finding: a non-runtime entry, then
      a runtime one. */
  function StalledTable(ds: nat, other: MemDesc, rt: MemDesc): seq<ConfigEntry>
  {
    [MatEntry(Some(MemAttrTable(ds, [other, rt])))]
  }

  /** On that table, as written, both slots stay unwritten and both are
      inserted: one free slot in the list is not enough, and with two the
      list receives two indeterminate regions and no real one. */
  lemma StalledSlotsStillInserted(l: RegionList, ds: nat, other: MemDesc, rt: MemDesc)
    requires !IsRuntime(other) && IsRuntime(rt) && l.room >= 1
    ensures var w := SetupRtMrdsAsWritten(l, false, RtMdToBiMrds(StalledTable(ds, other, rt), Success), Success);
            && (w.Done? <==> l.room >= 2)
            && (w.Crashed? ==> w.site == RtInsert)
            && (w.Done? ==> w.value.0.ops == l.ops + [InsertIndeterminate, InsertIndeterminate])
  {
    StalledLookupAsWritten(ds, other, rt);
    TwoUnwrittenSlots(l, [AllocatePool(RtMrdsPool, 2)]);
  }

  lemma TwoUnwrittenSlots(l: RegionList, calls: seq<FwCall>)
    requires l.room >= 1
    ensures var w := SetupRtMrdsAsWritten(l, false, Done(Overlay(true, 2, Some([Unwritten, Unwritten])), calls), Success);
            && (w.Done? <==> l.room >= 2)
            && (w.Crashed? ==> w.site == RtInsert)
            && (w.Done? ==> w.value.0.ops == l.ops + [InsertIndeterminate, InsertIndeterminate])
  {
    assert SlotOps([Unwritten, Unwritten]) == [InsertIndeterminate, InsertIndeterminate];
  }

  /** On the same table the corrected conversion inserts the runtime
      entry's region, and one free slot is enough. */
  lemma StalledRegionRecovered(l: RegionList, ds: nat, other: MemDesc, rt: MemDesc)
    requires !IsRuntime(other) && IsRuntime(rt) && l.room >= 1
    ensures var c := SetupRtMrds(l, false, RtMdToBiMrdsIntended(StalledTable(ds, other, rt), Success), Success);
            c.Done? && c.value.0.ops == l.ops + [Insert(RtRegion(rt))]
  {
    StalledLookupIntended(ds, other, rt);
    assert Inserts([RtRegion(rt)]) == [Insert(RtRegion(rt))];
  }

  /** The lookup as written on that table: two unwritten slots. */
  lemma StalledLookupAsWritten(ds: nat, other: MemDesc, rt: MemDesc)
    requires !IsRuntime(other) && IsRuntime(rt)
    ensures RtMdToBiMrds(StalledTable(ds, other, rt), Success)
            == Done(Overlay(true, 2, Some([Unwritten, Unwritten])), [AllocatePool(RtMrdsPool, 2)])
  {
    assert FindMat(StalledTable(ds, other, rt)) == Some(Some(MemAttrTable(ds, [other, rt])));
    MatCursorStalls(other, rt);
  }

  /** The corrected lookup on that table: the runtime entry's region. */
  lemma StalledLookupIntended(ds: nat, other: MemDesc, rt: MemDesc)
    requires !IsRuntime(other) && IsRuntime(rt)
    ensures RtMdToBiMrdsIntended(StalledTable(ds, other, rt), Success)
            == Done(RtRegions(true, true, [RtRegion(rt)]), [AllocatePool(RtMrdsPool, 2)])
  {
    assert FindMat(StalledTable(ds, other, rt)) == Some(Some(MemAttrTable(ds, [other, rt])));
    IntendedRecoversStalledEntries(other, rt);
  }

  /** On tables of runtime entries only, the insertion as written and the
      corrected one do the same thing: same regions, same calls, same
      failures. */
  lemma RtMrdsAgreeOnRuntimeTables(l: RegionList, x86: bool, cfg: seq<ConfigEntry>, pool: Status, rtFree: Status)
    requires FindMat(cfg).Some? && FindMat(cfg).value.Some? ==> RuntimeOnly(FindMat(cfg).value.value)
    ensures SetupRtMrdsAsWritten(l, x86, RtMdToBiMrds(cfg, pool), rtFree)
            == SetupRtMrds(l, x86, RtMdToBiMrdsIntended(cfg, pool), rtFree)
  {
    var w := RtMdToBiMrds(cfg, pool);
    var c := RtMdToBiMrdsIntended(cfg, pool);
    if w.Done? {
      if FindMat(cfg).Some? && FindMat(cfg).value.Some? {
        var entries := FindMat(cfg).value.value.entries;
        assert w.value.pool == Some(MatSlots(entries));
        AllRuntimeTablesAgree(entries);
        WrittenSlotOps(MatSlots(entries), IntendedRtRegions(entries));
      }
      SameInsertion(l, x86, w.value, c.value, w.calls, rtFree);
    } else {
      SameCrash(l, x86, w.calls, w.site, rtFree);
    }
  }

  /** Two lookups that agree on the flag, the pool and the regions to
      insert lead to the same stage. */
  lemma SameInsertion(l: RegionList, x86: bool, ov: Overlay, rr: RtRegions, calls: seq<FwCall>, rtFree: Status)
    requires |PoolSlots(ov)| == ov.count == |rr.regions|
    requires ov.matPresent == rr.matPresent && ov.pool.Some? == rr.pooled
    requires SlotOps(PoolSlots(ov)) == Inserts(rr.regions)
    ensures SetupRtMrdsAsWritten(l, x86, Done(ov, calls), rtFree) == SetupRtMrds(l, x86, Done(rr, calls), rtFree)
  {
  }

  /** A failed lookup stops both stages the same way. */
  lemma SameCrash(l: RegionList, x86: bool, calls: seq<FwCall>, site: Fatal, rtFree: Status)
    ensures SetupRtMrdsAsWritten(l, x86, Crashed(calls, site), rtFree) == SetupRtMrds(l, x86, Crashed(calls, site), rtFree)
  {
  }

  /** Slots that all hold the given regions insert exactly those regions. */
  lemma {:induction false} WrittenSlotOps(slots: seq<Slot>, rs: seq<MemRegion>)
    requires |slots| == |rs|
    requires forall k :: 0 <= k < |slots| ==> slots[k] == Written(rs[k])
    ensures SlotOps(slots) == Inserts(rs)
    decreases |slots|
  {
    if slots != [] {
      WrittenSlotOps(slots[1..], rs[1..]);
      assert SlotOps(slots) == [Insert(rs[0])] + SlotOps(slots[1..]);
    }
  }

  /** The rest of uk_efi_setup_bootinfo_mrds, given how the snapshot and
      exit went: with boot services gone, every accepted descriptor's
      region, the coalescing pass and (x86-64) the SIPI vector; failures
      here are kernel crashes, and no firmware call follows the exit. */
  function SetupMapMrds(l: RegionList, matPresent: bool, x86: bool, snap: Outcome<Snapshot>, k: Kernel): (o: Outcome<RegionList>)
    ensures o.calls == snap.calls
    ensures snap.Crashed? ==> o.Crashed? && o.site == snap.site
    ensures snap.Done? ==>
              (o.Done? <==> |AcceptedRegions(snap.value.memMap.descs, matPresent)| <= l.room && (!x86 || k.sipiOk))
    ensures snap.Done? && o.Crashed? ==> KernelCrash(o.site)
    ensures o.Done? ==>
              && snap.Done?
              && o.value.ops == l.ops + Inserts(AcceptedRegions(snap.value.memMap.descs, matPresent))
                                 + [Coalesce] + (if x86 then [SipiReserve] else [])
  {
    if snap.Crashed? then Crashed(snap.calls, snap.site)
    else
      var inserted := InsertAll(l, AcceptedRegions(snap.value.memMap.descs, matPresent));
      if inserted.None? then Crashed(snap.calls, MrdInsert)
      else if x86 && !k.sipiOk then Crashed(snap.calls, SipiVector)
      else
        var ops := inserted.value.ops + [Coalesce] + (if x86 then [SipiReserve] else []);
        Done(RegionList(ops, inserted.value.room), snap.calls)
  }

  /** The room uk_efi_setup_bootinfo_mrds takes in the region list: the
      legacy hole, the table's regions and the accepted map regions (the
      coalescing pass and the SIPI vector take none). */
  function MrdsRoom(x86: bool, rtRegions: seq<MemRegion>, accepted: seq<MemRegion>): nat
  {
    (if x86 then 1 else 0) + |rtRegions| + |accepted|
  }

  /** When uk_efi_setup_bootinfo_mrds completes on a list with the given
      room: the table conversion, the release of its pool, the snapshot
      and exit and (x86-64) the SIPI vector succeed, and every region fits. */
  predicate MrdsComplete(room: nat, cfg: Config, fw: Firmware, k: Kernel)
  {
    var rt := RtMdToBiMrdsIntended(fw.configTables, fw.rtPool);
    var snap := GetMmapAndExitBs(fw.exit, Policy(cfg));
    && rt.Done? && fw.rtFree == Success && snap.Done? && (!cfg.x86 || k.sipiOk)
    && MrdsRoom(cfg.x86, rt.value.regions, AcceptedRegions(snap.value.memMap.descs, rt.value.matPresent)) <= room
  }

  /** uk_efi_setup_bootinfo_mrds. */
  function SetupMrds(bi: BootInfo, cfg: Config, fw: Firmware, k: Kernel): (o: Outcome<BootInfo>)
    ensures o.Done? ==> o.value.(mrds := bi.mrds) == bi
    ensures o.Done? ==>
              var rt := RtMdToBiMrdsIntended(fw.configTables, fw.rtPool);
              var snap := GetMmapAndExitBs(fw.exit, Policy(cfg));
              && rt.Done? && snap.Done?
              && o.value.mrds.ops == bi.mrds.ops + MrdsOps(cfg.x86, rt.value.regions,
                                                                 AcceptedRegions(snap.value.memMap.descs, rt.value.matPresent))
    ensures o.Done? <==> MrdsComplete(bi.mrds.room, cfg, fw, k)
    ensures o.Done? || KernelCrash(o.site) ==> EndsWithExit(o.calls)
  {
    MrdsSteps(bi, cfg.x86, RtMdToBiMrdsIntended(fw.configTables, fw.rtPool), fw.rtFree,
              GetMmapAndExitBs(fw.exit, Policy(cfg)), k)
  }

  /** The steps of uk_efi_setup_bootinfo_mrds given the outcome of the
      attribute-table conversion and of the snapshot and exit: the table
      conversion never fails in the kernel, and an exit that completes
      ends with ExitBootServices. */
  function MrdsSteps(bi: BootInfo, x86: bool, rt: Outcome<RtRegions>, rtFree: Status,
                     snap: Outcome<Snapshot>, k: Kernel): (o: Outcome<BootInfo>)
    requires rt.Crashed? ==> !KernelCrash(rt.site)
    requires snap.Crashed? ==> !KernelCrash(snap.site)
    requires snap.Done? ==> EndsWithExit(snap.calls)
    ensures o.Done? ==> o.value.(mrds := bi.mrds) == bi
    ensures o.Done? ==>
              && rt.Done? && snap.Done?
              && o.value.mrds.ops == bi.mrds.ops + MrdsOps(x86, rt.value.regions,
                                                             AcceptedRegions(snap.value.memMap.descs, rt.value.matPresent))
    ensures o.Done? <==>
              && rt.Done? && rtFree == Success && snap.Done? && (!x86 || k.sipiOk)
              && MrdsRoom(x86, rt.value.regions, AcceptedRegions(snap.value.memMap.descs, rt.value.matPresent))
                   <= bi.mrds.room
    ensures o.Done? || KernelCrash(o.site) ==> EndsWithExit(o.calls)
  {
    var first := SetupRtMrds(bi.mrds, x86, rt, rtFree);
    if first.Crashed? then Crashed(first.calls, first.site)
    else
      var m := SetupMapMrds(first.value.0, first.value.1, x86, snap, k);
      ExitStaysLast(first.calls, m.calls);
      if m.Crashed? then Crashed(first.calls + m.calls, m.site)
      else
        Assoc(bi.mrds.ops, if x86 then [LegacyHole] else [], Inserts(rt.value.regions),
              Inserts(AcceptedRegions(snap.value.memMap.descs, rt.value.matPresent)),
              [Coalesce], if x86 then [SipiReserve] else []);
        Done(bi.(mrds := m.value), first.calls + m.calls)
  }

  lemma Assoc(pre: seq<ListOp>, a: seq<ListOp>, b: seq<ListOp>, c: seq<ListOp>, d: seq<ListOp>, e: seq<ListOp>)
    ensures pre + a + b + c + d + e == pre + (a + b + c + d + e)
  {
  }

  /** The record once the identity tags are written. The record
      ukplat_bootinfo_get returns is pre-filled at build time; the model
      takes every other field as zero and the region list as empty, with
      the given room. */
  function Tagged(room: nat): BootInfo
  {
    BootInfo("EFI_STUB", "EFI", 0, 0, 0, 0, RegionList([], room))
  }

  /** The regions the payload steps insert: the command line's, the
      initrd's and the device tree's, each when present. */
  function PayloadCount(cfg: Config, fw: Firmware): nat
    requires InputsOk(cfg, fw) && LoadedCmdline(cfg, fw).Done?
  {
    |CmdlineOps(LoadedCmdline(cfg, fw).value)| + |FileOps(cfg.initrdFname, fw.initrdFile, Initrd)|
      + |FileOps(cfg.dtbFname, fw.dtbFile, DeviceTree)|
  }

  /** When the payload steps complete on a list with the given room: the
      image lookup succeeds, the command line is obtained, the configured
      files are read, and their regions fit. */
  predicate PayloadsComplete(room: nat, cfg: Config, fw: Firmware)
    requires InputsOk(cfg, fw)
  {
    && fw.image.status == Success && LoadedCmdline(cfg, fw).Done?
    && PayloadReadable(cfg.initrdFname, fw.initrdFile) && PayloadReadable(cfg.dtbFname, fw.dtbFile)
    && PayloadCount(cfg, fw) <= room
  }

  /** The steps of uk_efi_setup_bootinfo that still need boot services
      (efi.c:627-631): command line, initrd, device tree, in that order, on
      the tagged record. Their regions are appended in that order, each only
      when present; the initrd's buffer is recorded as a region only, no
      record field points at it. */
  function SetupPayloads(room: nat, cfg: Config, fw: Firmware): (o: Outcome<BootInfo>)
    requires InputsOk(cfg, fw)
    ensures o.Done? ==> o.value.(cmdline := 0, cmdlineLen := 0, dtb := 0, mrds := RegionList([], room)) == Tagged(room)
    ensures o.Done? ==>
              var cl := LoadedCmdline(cfg, fw);
              && cl.Done?
              && o.value.mrds.ops == CmdlineOps(cl.value) + FileOps(cfg.initrdFname, fw.initrdFile, Initrd)
                                       + FileOps(cfg.dtbFname, fw.dtbFile, DeviceTree)
              && o.value.cmdline == (if cl.value.Some? then cl.value.value.base else 0)
              && o.value.cmdlineLen == (if cl.value.Some? then cl.value.value.len else 0)
    ensures o.Done? ==> o.value.dtb == (if |cfg.dtbFname| > 0 then fw.dtbFile.base else 0)
    ensures o.Done? <==> PayloadsComplete(room, cfg, fw)
    ensures o.Done? ==> o.value.mrds.room == room - PayloadCount(cfg, fw)
    ensures o.Crashed? ==> !KernelCrash(o.site)
  {
    match SetupCmdl(Stage(Tagged(room), None), cfg, fw)
    case Crashed(c, f) => Crashed(c, f)
    case Done(st1, c1) =>
      assert st1.bi.mrds.ops == CmdlineOps(LoadedCmdline(cfg, fw).value);
      After(c1, LoadFiles(st1, cfg, fw))
  }

  /** uk_efi_setup_bootinfo (efi.c:617-635): a missing boot record is
      fatal; the identity tags are written, the payloads and then the
      memory regions are set up, and the system table pointer is recorded
      last. The region list ends up holding the payload regions, then the
      memory regions in MrdsOps order. */
  function SetupBootinfo(cfg: Config, fw: Firmware, k: Kernel): (o: Outcome<BootInfo>)
    requires InputsOk(cfg, fw)
    ensures o.Done? ==> o.value.bootloader == "EFI_STUB" && o.value.bootprotocol == "EFI"
    ensures o.Done? ==> o.value.efiSt == fw.systemTable
    ensures o.Done? ==> o.value.dtb == (if |cfg.dtbFname| > 0 then fw.dtbFile.base else 0)
    ensures o.Done? ==>
              var rt := RtMdToBiMrdsIntended(fw.configTables, fw.rtPool);
              var snap := GetMmapAndExitBs(fw.exit, Policy(cfg));
              var cl := LoadedCmdline(cfg, fw);
              && rt.Done? && snap.Done? && cl.Done?
              && o.value.mrds.ops == CmdlineOps(cl.value)
                                       + FileOps(cfg.initrdFname, fw.initrdFile, Initrd)
                                       + FileOps(cfg.dtbFname, fw.dtbFile, DeviceTree)
                                       + MrdsOps(cfg.x86, rt.value.regions,
                                                 AcceptedRegions(snap.value.memMap.descs, rt.value.matPresent))
    ensures o.Done? ==>
              var cl := LoadedCmdline(cfg, fw);
              && cl.Done?
              && o.value.cmdline == (if cl.value.Some? then cl.value.value.base else 0)
              && o.value.cmdlineLen == (if cl.value.Some? then cl.value.value.len else 0)
    ensures !k.hasBootinfo ==> o == Crashed([], NoBootinfo)
    ensures o.Done? <==>
              && k.hasBootinfo && PayloadsComplete(k.room, cfg, fw)
              && MrdsComplete(k.room - PayloadCount(cfg, fw), cfg, fw, k)
  {
    if !k.hasBootinfo then Crashed([], NoBootinfo)
    else
      match SetupPayloads(k.room, cfg, fw)
      case Crashed(c, f) => Crashed(c, f)
      case Done(bi3, c3) =>
        Finish(SetupMrds(bi3, cfg, fw, k), c3, fw)
  }

  /** A run of uk_efi_setup_bootinfo that completes, or that crashes in
      the kernel, has left boot services with its last firmware call. */
  lemma SetupBootinfoExits(cfg: Config, fw: Firmware, k: Kernel)
    requires InputsOk(cfg, fw)
    ensures var o := SetupBootinfo(cfg, fw, k);
            (o.Done? || KernelCrash(o.site)) ==> EndsWithExit(o.calls)
  {
    if k.hasBootinfo {
      var p := SetupPayloads(k.room, cfg, fw);
      if p.Done? {
        var m := SetupMrds(p.value, cfg, fw, k);
        assert SetupBootinfo(cfg, fw, k) == Finish(m, p.calls, fw);
        if m.Done? || KernelCrash(m.site) {
          ExitStaysLast(p.calls, m.calls);
        }
      }
    }
  }

  /** The last step of uk_efi_setup_bootinfo: the system table pointer. */
  function Finish(m: Outcome<BootInfo>, pre: seq<FwCall>, fw: Firmware): (o: Outcome<BootInfo>)
    ensures o.calls == pre + m.calls
    ensures o.Done? <==> m.Done?
    ensures o.Done? ==> o.value == m.value.(efiSt := fw.systemTable)
    ensures o.Crashed? ==> o.site == m.site
  {
    match m
    case Crashed(c, f) => Crashed(pre + c, f)
    case Done(bi4, c4) => Done(bi4.(efiSt := fw.systemTable), pre + c4)
  }

  /** A log whose last call is ExitBootServices. */
  predicate EndsWithExit(calls: seq<FwCall>)
  {
    |calls| > 0 && calls[|calls| - 1].ExitBootServices?
  }

  lemma ExitStaysLast(a: seq<FwCall>, b: seq<FwCall>)
    ensures EndsWithExit(b) ==> EndsWithExit(a + b)
  {
  }

  /** The region operations of uk_efi_setup_bootinfo_mrds, in order, given
      the attribute-table regions and the regions accepted from the final
      snapshot: the legacy hole, the table's regions, the accepted
      descriptors in map order, one coalescing pass, the SIPI vector. */
  function MrdsOps(x86: bool, rtRegions: seq<MemRegion>, accepted: seq<MemRegion>): seq<ListOp>
  {
    (if x86 then [LegacyHole] else []) + Inserts(rtRegions) + Inserts(accepted)
      + [Coalesce] + (if x86 then [SipiReserve] else [])
  }

  /** The coalescing pass runs exactly once, after every insertion. */
  lemma CoalesceOnce(x86: bool, rtRegions: seq<MemRegion>, accepted: seq<MemRegion>)
    ensures var ops := MrdsOps(x86, rtRegions, accepted);
            forall i :: 0 <= i < |ops| ==>
              (ops[i] == Coalesce <==> i == |ops| - 1 - (if x86 then 1 else 0))
  {
    var head := (if x86 then [LegacyHole] else []) + Inserts(rtRegions) + Inserts(accepted);
    var tail := if x86 then [SipiReserve] else [];
    assert Coalesce !in Inserts(rtRegions) && Coalesce !in Inserts(accepted);
    assert Coalesce !in head;
    assert Coalesce !in tail;
    CoalesceOnlyAt(head, tail);
  }

  lemma CoalesceOnlyAt(head: seq<ListOp>, tail: seq<ListOp>)
    requires Coalesce !in head && Coalesce !in tail
    ensures var ops := head + [Coalesce] + tail;
            forall i :: 0 <= i < |ops| ==> (ops[i] == Coalesce <==> i == |head|)
  {
  }

  /** A runtime-services descriptor, code or data. */
  predicate RuntimeServicesType(md: MemDesc)
  {
    MemTypeOf(md.memType) == RuntimeServicesCode || MemTypeOf(md.memType) == RuntimeServicesData
  }

  /** With an attribute table the runtime-services memory is described by
      the table alone: no region taken from the memory map comes from a
      runtime-services descriptor, so nothing is inserted twice. */
  lemma RuntimeCountedOnce(descs: seq<MemDesc>)
    ensures forall r :: r in AcceptedRegions(descs, true) ==>
              exists d :: d in descs && MdToBiMrd(d, true) == Mrd(r) && !RuntimeServicesType(d)
  {
  }

  /** A table entry whose pointer is NULL marks the table present but
      yields no region: the runtime-services memory then appears in neither
      the table's regions nor the map's. */
  lemma NullMatDropsRuntime(cfg: seq<ConfigEntry>, pool: Status, descs: seq<MemDesc>)
    requires FindMat(cfg) == Some(None)
    ensures RtMdToBiMrdsIntended(cfg, pool) == Done(RtRegions(true, false, []), [])
    ensures forall r :: r in AcceptedRegions(descs, true) ==>
              exists d :: d in descs && MdToBiMrd(d, true) == Mrd(r) && !RuntimeServicesType(d)
  {
  }

  /** "MemoryOverwriteRequestControl" */
  const MOR_NAME: string := "MemoryOverwriteRequestControl"

  /** uk_efi_reset_attack_mitigation_enable (efi.c:640-670), section 4 of
      the TCG Platform Reset Attack Mitigation Specification: when built
      in, the control variable is probed; if the firmware has no such
      variable or no variable store the step is skipped, any other failure
      is fatal, and otherwise the variable is set to 1, non-volatile and
      accessible from boot and runtime services. */
  function ResetAttackMitigation(cfg: Config, fw: Firmware): (o: Outcome<bool>)
    ensures !cfg.rstAtkMitigation ==> o == Done(false, [])
    ensures cfg.rstAtkMitigation ==> |o.calls| > 0 && o.calls[0] == GetVariable(MOR_NAME)
    ensures o.Done? && o.value <==>
              cfg.rstAtkMitigation && fw.morGet == Success && fw.morSet == Success
    ensures o.Done? && o.value ==>
              o.calls == [GetVariable(MOR_NAME),
                          SetVariable(MOR_NAME, {NonVolatile, BootServiceAccess, RuntimeAccess}, [1])]
    ensures o.Crashed? <==>
              cfg.rstAtkMitigation && fw.morGet != Unsupported && fw.morGet != NotFound
              && (fw.morGet != Success || fw.morSet != Success)
    ensures o.Crashed? ==> o.site == (if fw.morGet != Success then MorGet else MorSet)
  {
    if !cfg.rstAtkMitigation then Done(false, [])
    else
      var get := [GetVariable(MOR_NAME)];
      if fw.morGet == Unsupported || fw.morGet == NotFound then Done(false, get)
      else if fw.morGet != Success then Crashed(get, MorGet)
      else
        var both := get + [SetVariable(MOR_NAME, {NonVolatile, BootServiceAccess, RuntimeAccess}, [1])];
        if fw.morSet != Success then Crashed(both, MorSet)
        else Done(true, both)
  }

  /** uk_efi_main (efi.c:672-686): the mitigation, then the boot record;
      reaching the kernel entry (jmp_to_kern) is a completed run. */
  function EfiMain(cfg: Config, fw: Firmware, k: Kernel): (o: Outcome<BootInfo>)
    requires InputsOk(cfg, fw)
    ensures o.Done? ==> o.value.bootloader == "EFI_STUB" && o.value.efiSt == fw.systemTable
    ensures o.Done? <==> ResetAttackMitigation(cfg, fw).Done? && SetupBootinfo(cfg, fw, k).Done?
    ensures o.Done? ==>
              && o.value == SetupBootinfo(cfg, fw, k).value
              && o.calls == ResetAttackMitigation(cfg, fw).calls + SetupBootinfo(cfg, fw, k).calls
  {
    match ResetAttackMitigation(cfg, fw)
    case Crashed(c, f) => Crashed(c, f)
    case Done(_, c) => After(c, SetupBootinfo(cfg, fw, k))
  }

  /** A completed run with the mitigation enabled and the variable present
      has written it (the second call) before anything else touches
      firmware, and has left boot services with its last call. */
  lemma MorSetBeforeExit(cfg: Config, fw: Firmware, k: Kernel)
    requires InputsOk(cfg, fw)
    requires cfg.rstAtkMitigation && fw.morGet == Success
    ensures var o := EfiMain(cfg, fw, k);
            o.Done? ==>
              && |o.calls| > 2
              && o.calls[0] == GetVariable(MOR_NAME)
              && o.calls[1] == SetVariable(MOR_NAME, {NonVolatile, BootServiceAccess, RuntimeAccess}, [1])
              && EndsWithExit(o.calls)
  {
    var o := EfiMain(cfg, fw, k);
    if o.Done? {
      var r := ResetAttackMitigation(cfg, fw);
      var b := SetupBootinfo(cfg, fw, k);
      SetupBootinfoExits(cfg, fw, k);
      ExitStaysLast(r.calls, b.calls);
      assert o.calls[..2] == r.calls;
    }
  }
}

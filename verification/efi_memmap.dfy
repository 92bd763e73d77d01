/** uk_efi_md_to_bi_mrd (plat/kvm/efi.c:142-217), which turns one UEFI memory
    descriptor into one kernel memory region, and the walk of
    uk_efi_setup_bootinfo_mrds (efi.c:392-401) that applies it to every
    descriptor of the snapshot taken at ExitBootServices. */
module EfiMemMap {
  import opened Common
  import opened EfiBase

  /** How the switch of uk_efi_md_to_bi_mrd files a memory type: a region
      type and flags, "already accounted for" (-EEXIST), or unknown (-EINVAL). */
  datatype Class = Keep(rtype: RegionType, flags: set<MemFlag>) | AlreadyMapped | UnknownType

  function Classify(t: MemType, matPresent: bool): Class
  {
    match t
    case ReservedMemoryType => Keep(Reserved, {Read, Map})
    case AcpiReclaimMemory => Keep(Reserved, {Read, Map})
    case UnusableMemory => Keep(Reserved, {Read, Map})
    case AcpiMemoryNvs => Keep(Reserved, {Read, Map})
    case PalCode => Keep(Reserved, {Read, Map})
    case PersistentMemory => Keep(Reserved, {Read, Map})
    case MemoryMappedIo => Keep(Reserved, {Read, Write, Map})
    case MemoryMappedIoPortSpace => Keep(Reserved, {Read, Write, Map})
    // a Memory Attributes Table already supplied these, more finely
    case RuntimeServicesCode => if matPresent then AlreadyMapped else Keep(Reserved, {Read, Write, Map})
    case RuntimeServicesData => if matPresent then AlreadyMapped else Keep(Reserved, {Read, Write, Map})
    // the image itself, already described and relocated before the stub ran
    case LoaderCode => AlreadyMapped
    case LoaderData => AlreadyMapped
    // reclaimable once boot services are gone
    case BootServicesCode => Keep(Free, {Read, Write})
    case BootServicesData => Keep(Free, {Read, Write})
    case ConventionalMemory => Keep(Free, {Read, Write})
    case Unlisted(_) => UnknownType
  }

  /** physical_start + number_of_pages * EFI_PAGE_SIZE in 64-bit paddr_t
      arithmetic. */
  function DescEnd(md: MemDesc): u64
  {
    (md.physStart + md.numPages * EFI_PAGE_SIZE) % U64_LIMIT
  }

  /** The clamped start: the zero page is never handed out. */
  function ClampedStart(md: MemDesc): nat
  {
    Max(md.physStart, PAGE_SIZE)
  }

  /** The range test of efi.c:209, negated. */
  predicate RangeOk(md: MemDesc)
  {
    DescEnd(md) > ClampedStart(md) && DescEnd(md) - ClampedStart(md) >= PAGE_SIZE
  }

  datatype MrdResult = Mrd(mrd: MemRegion) | MrdErr(rc: int)

  /** uk_efi_md_to_bi_mrd. The type decides first (an unknown type is
      -EINVAL and a loader or already-overlaid runtime type -EEXIST whatever
      the range); a kept type then passes the range test or yields -ENOMEM.
      An accepted region is identity-mapped, starts at or above the first
      page, spans at least a page and ends where the descriptor ends. */
  function MdToBiMrd(md: MemDesc, matPresent: bool): (r: MrdResult)
    ensures r.MrdErr? ==> r.rc == -EEXIST || r.rc == -EINVAL || r.rc == -ENOMEM
    ensures r == MrdErr(-EINVAL) <==> md.memType > 14
    ensures r == MrdErr(-EEXIST) <==>
              MemTypeOf(md.memType) in {LoaderCode, LoaderData}
              || (matPresent && MemTypeOf(md.memType) in {RuntimeServicesCode, RuntimeServicesData})
    ensures r.Mrd? <==> Classify(MemTypeOf(md.memType), matPresent).Keep? && RangeOk(md)
    ensures r.Mrd? ==>
              && r.mrd.pbase == r.mrd.vbase == Max(md.physStart, PAGE_SIZE)
              && r.mrd.len >= PAGE_SIZE
              && r.mrd.pbase + r.mrd.len == DescEnd(md)
              && r.mrd.rtype == Classify(MemTypeOf(md.memType), matPresent).rtype
              && r.mrd.flags == Classify(MemTypeOf(md.memType), matPresent).flags
  {
    match Classify(MemTypeOf(md.memType), matPresent)
    case UnknownType => MrdErr(-EINVAL)
    case AlreadyMapped => MrdErr(-EEXIST)
    case Keep(rtype, flags) =>
      var start := ClampedStart(md);
      var end := DescEnd(md);
      if end <= start || end - start < PAGE_SIZE then MrdErr(-ENOMEM)
      else Mrd(MemRegion(start, start, end - start, rtype, flags))
  }

  /** The classification table, stated over the raw EFI_MEMORY_TYPE codes of
      section 7.2 of the UEFI Specification. */
  lemma ClassificationTable(code: u32, matPresent: bool)
    ensures Classify(MemTypeOf(code), matPresent) == Keep(Reserved, {Read, Map}) <==>
                  code in {0, 8, 9, 10, 13, 14}
    ensures Classify(MemTypeOf(code), matPresent) == Keep(Reserved, {Read, Write, Map}) <==>
                  code in {11, 12} || (!matPresent && code in {5, 6})
    ensures Classify(MemTypeOf(code), matPresent) == Keep(Free, {Read, Write}) <==>
                  code in {3, 4, 7}
    ensures Classify(MemTypeOf(code), matPresent) == AlreadyMapped <==>
                  code in {1, 2} || (matPresent && code in {5, 6})
    ensures Classify(MemTypeOf(code), matPresent) == UnknownType <==> code > 14
  {
  }

  /** The Memory Attributes Table flag matters to runtime-services
      descriptors only; every other descriptor translates the same way. */
  lemma MatOnlyAffectsRuntime(md: MemDesc)
    requires md.memType != 5 && md.memType != 6
    ensures MdToBiMrd(md, true) == MdToBiMrd(md, false)
  {
  }

  /** No region the translator produces is both writable and executable,
      none is executable at all, and only the reclaimable types come out
      FREE (and then unmapped at boot). */
  lemma TranslatedFlags(md: MemDesc, matPresent: bool)
    ensures var r := MdToBiMrd(md, matPresent);
            r.Mrd? ==>
              && Read in r.mrd.flags
              && Execute !in r.mrd.flags
              && (r.mrd.rtype == Free <==> md.memType in {3, 4, 7})
              && (r.mrd.rtype == Free ==> Map !in r.mrd.flags)
              && (r.mrd.rtype == Reserved ==> Map in r.mrd.flags)
  {
  }

  predicate InRegion(r: MemRegion, a: nat)
  {
    r.pbase <= a < r.pbase + r.len
  }

  /** When the descriptor's end does not wrap the 64-bit address space, the
      region covers exactly the descriptor's addresses outside the zero page. */
  lemma RegionCoversDescriptor(md: MemDesc, matPresent: bool, a: nat)
    requires md.physStart + md.numPages * EFI_PAGE_SIZE < U64_LIMIT
    requires MdToBiMrd(md, matPresent).Mrd?
    ensures InRegion(MdToBiMrd(md, matPresent).mrd, a) <==>
                  md.physStart <= a < md.physStart + md.numPages * EFI_PAGE_SIZE && a >= PAGE_SIZE
  {
  }

  /** For a page-aligned descriptor whose end does not wrap, the range test
      rejects exactly the descriptors with no page above the zero page. */
  lemma RangeRejectsOnlyZeroPage(md: MemDesc, matPresent: bool)
    requires Classify(MemTypeOf(md.memType), matPresent).Keep?
    requires md.physStart % EFI_PAGE_SIZE == 0
    requires md.physStart + md.numPages * EFI_PAGE_SIZE < U64_LIMIT
    ensures MdToBiMrd(md, matPresent) == MrdErr(-ENOMEM) <==>
                  md.physStart + md.numPages * EFI_PAGE_SIZE <= PAGE_SIZE || md.numPages == 0
  {
  }

  /** The memory map as GetMemoryMap delivered it: buffer base, reported
      size, descriptor stride, and the descriptor found at each stride
      offset below the reported size. */
  datatype MemMap = MemMap(base: nat, mapSize: nat, descSize: nat, descs: seq<MemDesc>)

  /** A stride of zero would never advance the walk; UEFI guarantees a
      stride of at least one descriptor. */
  predicate WellFormedMap(m: MemMap)
  {
    m.descSize > 0 && |m.descs| == DivRoundUp(m.mapSize, m.descSize)
  }

  /** The descriptors the translator accepts, their regions in map order. */
  function AcceptedRegions(descs: seq<MemDesc>, matPresent: bool): (rs: seq<MemRegion>)
    ensures |rs| <= |descs|
    ensures forall d :: d in descs && MdToBiMrd(d, matPresent).Mrd? ==> MdToBiMrd(d, matPresent).mrd in rs
    ensures forall r :: r in rs ==> exists d :: d in descs && MdToBiMrd(d, matPresent) == Mrd(r)
    decreases |descs|
  {
    if descs == [] then []
    else
      var init := descs[..|descs| - 1];
      var last := descs[|descs| - 1];
      assert descs == init + [last];
      var rs := AcceptedRegions(init, matPresent);
      match MdToBiMrd(last, matPresent)
      case Mrd(r) => rs + [r]
      case MrdErr(_) => rs
  }

  /** The region a descriptor contributes: none, or the translated one. */
  function Accepted(md: MemDesc, matPresent: bool): seq<MemRegion>
  {
    match MdToBiMrd(md, matPresent)
    case Mrd(r) => [r]
    case MrdErr(_) => []
  }

  /** Extending the walked prefix by one descriptor appends that
      descriptor's region if it is accepted. */
  lemma AcceptedRegionsStep(descs: seq<MemDesc>, k: nat, matPresent: bool)
    requires k < |descs|
    ensures AcceptedRegions(descs[..k + 1], matPresent) ==
              AcceptedRegions(descs[..k], matPresent) + Accepted(descs[k], matPresent)
  {
    assert descs[..k + 1][..k] == descs[..k];
  }

  /** The walk of efi.c:392-401: a cursor starting at the map base advances
      by the descriptor stride while it is below base + map size; every
      descriptor the translator accepts is inserted, in map order, and
      every other one skipped. */
  method WalkMap(m: MemMap, matPresent: bool) returns (rs: seq<MemRegion>)
    requires WellFormedMap(m)
    ensures rs == AcceptedRegions(m.descs, matPresent)
  {
    var off := 0;
    var k := 0;
    rs := [];
    StrideBelow(m.mapSize, m.descSize, k);
    while off < m.mapSize
      invariant off == k * m.descSize
      invariant k <= |m.descs|
      invariant off < m.mapSize <==> k < |m.descs|
      invariant rs == AcceptedRegions(m.descs[..k], matPresent)
      decreases m.mapSize - off
    {
      AcceptedRegionsStep(m.descs, k, matPresent);
      rs := rs + Accepted(m.descs[k], matPresent);
      MulSucc(k, m.descSize);
      off := off + m.descSize;
      k := k + 1;
      StrideBelow(m.mapSize, m.descSize, k);
    }
    assert m.descs[..k] == m.descs;
  }

  /** A map of boot-services data at 0x100000 over 16 pages and a
      reserved page at address zero, without an attribute table, leaves one
      FREE read-write region [0x100000, 0x110000). */
  lemma ZeroPageScenario()
    ensures AcceptedRegions([MemDesc(4, 0x10_0000, 16, 0), MemDesc(0, 0, 1, 0)], false)
              == [MemRegion(0x10_0000, 0x10_0000, 0x1_0000, Free, {Read, Write})]
  {
    assert MdToBiMrd(MemDesc(0, 0, 1, 0), false) == MrdErr(-ENOMEM);
    assert [MemDesc(4, 0x10_0000, 16, 0), MemDesc(0, 0, 1, 0)][..1] == [MemDesc(4, 0x10_0000, 16, 0)];
    assert [MemDesc(4, 0x10_0000, 16, 0)][..0] == [];
  }
}

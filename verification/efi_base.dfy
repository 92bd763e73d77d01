/** Data model of the EFI boot stub (plat/kvm/efi.c): UEFI memory descriptors
    and status codes as firmware reports them, kernel memory regions as the
    boot record stores them, and the log of firmware calls a run makes. */
module EfiBase {
  import opened Common

  /** __PAGE_SIZE of the kernel (4 KiB on every architecture this stub runs on). */
  const PAGE_SIZE: nat := 0x1000
  /** EFI_PAGE_SIZE, fixed at 4 KiB by section 7.2 of the UEFI Specification. */
  const EFI_PAGE_SIZE: nat := 0x1000
  /** Length, in UTF-16 units, of the path buffer handed to the file protocol. */
  const UK_EFI_MAXPATHLEN: nat := 4096
  /** Extra descriptors' worth of room added to the size GetMemoryMap reports. */
  const UK_EFI_SURPLUS_MEM_DESC_COUNT: nat := 10

  /** EFI_MEMORY_TYPE, section 7.2 of the UEFI Specification. Codes the stub's
      switch does not name (EfiUnacceptedMemoryType, OEM and OS ranges) are
      kept as Unlisted. */
  datatype MemType =
    | ReservedMemoryType      // 0
    | LoaderCode              // 1
    | LoaderData              // 2
    | BootServicesCode        // 3
    | BootServicesData        // 4
    | RuntimeServicesCode     // 5
    | RuntimeServicesData     // 6
    | ConventionalMemory      // 7
    | UnusableMemory          // 8
    | AcpiReclaimMemory       // 9
    | AcpiMemoryNvs           // 10
    | MemoryMappedIo          // 11
    | MemoryMappedIoPortSpace // 12
    | PalCode                 // 13
    | PersistentMemory        // 14
    | Unlisted(code: nat)

  /** Decodes the 32-bit Type field of an EFI_MEMORY_DESCRIPTOR. */
  function MemTypeOf(code: u32): (t: MemType)
    ensures t.Unlisted? <==> code > 14
    ensures t.Unlisted? ==> t.code == code
  {
    if code == 0 then ReservedMemoryType
    else if code == 1 then LoaderCode
    else if code == 2 then LoaderData
    else if code == 3 then BootServicesCode
    else if code == 4 then BootServicesData
    else if code == 5 then RuntimeServicesCode
    else if code == 6 then RuntimeServicesData
    else if code == 7 then ConventionalMemory
    else if code == 8 then UnusableMemory
    else if code == 9 then AcpiReclaimMemory
    else if code == 10 then AcpiMemoryNvs
    else if code == 11 then MemoryMappedIo
    else if code == 12 then MemoryMappedIoPortSpace
    else if code == 13 then PalCode
    else if code == 14 then PersistentMemory
    else Unlisted(code)
  }

  /** EFI_MEMORY_DESCRIPTOR (the virtual-start field is never read by the stub). */
  datatype MemDesc = MemDesc(memType: u32, physStart: u64, numPages: u64, attribute: bv64)

  /** Attribute bits of section 7.2 of the UEFI Specification. */
  const EFI_MEMORY_XP: bv64 := 0x4000
  const EFI_MEMORY_RO: bv64 := 0x2_0000
  const EFI_MEMORY_RUNTIME: bv64 := 0x8000_0000_0000_0000

  /** Kernel memory-region types and flags (UKPLAT_MEMRT_*, UKPLAT_MEMRF_*). */
  datatype RegionType = Free | Reserved | Cmdline | Initrd | DeviceTree
  datatype MemFlag = Read | Write | Execute | Map

  /** struct ukplat_memregion_desc, as far as this file fills it in. */
  datatype MemRegion = MemRegion(pbase: nat, vbase: nat, len: nat, rtype: RegionType, flags: set<MemFlag>)

  /** EFI_STATUS, Appendix D of the UEFI Specification: success, the error
      codes by name, and the warning codes folded into Warning. */
  datatype Status =
    | Success | LoadError | InvalidParameter | Unsupported | BadBufferSize
    | BufferTooSmall | NotReady | DeviceError | WriteProtected | OutOfResources
    | VolumeCorrupted | VolumeFull | NoMedia | MediaChanged | NotFound
    | AccessDenied | NoResponse | NoMapping | Timeout | NotStarted
    | AlreadyStarted | Aborted | IcmpError | TftpError | ProtocolError
    | IncompatibleVersion | SecurityViolation | CrcError | EndOfMedia
    | EndOfFile | InvalidLanguage | CompromisedData | IpAddressConflict
    | HttpError | Warning(code: nat)

  /** AllocatePages strategy: AllocateAnyPages with paging support, otherwise
      AllocateMaxAddress below the ceiling. */
  datatype AllocType = AnyPages | MaxAddress
  datatype AllocPolicy = AllocPolicy(allocType: AllocType, ceiling: nat)

  datatype Protocol = LoadedImageProtocol | SimpleFileSystemProtocol

  /** Which buffer a pool call concerns; IndeterminatePointer is a pointer
      variable that was never assigned. */
  datatype PoolRef = RtMrdsPool | FileInfoPool | IndeterminatePointer

  datatype VarAttr = NonVolatile | BootServiceAccess | RuntimeAccess

  /** One call into firmware boot or runtime services, with the arguments
      that matter to the protocol. AllocatePool's size counts region
      descriptors for RtMrdsPool and bytes for FileInfoPool. */
  datatype FwCall =
    | GetMemoryMap(bufSize: nat)
    | AllocatePages(allocType: AllocType, maxAddr: nat, pages: nat)
    | FreePages(base: nat, pages: nat)
    | AllocatePool(pool: PoolRef, size: nat)
    | FreePool(pool: PoolRef)
    | ExitBootServices(mapKey: nat)
    | HandleProtocol(handle: nat, protocol: Protocol)
    | OpenVolume
    | OpenFile(path16: seq<byte>)
    | GetFileInfo(bufSize: nat)
    | ReadFile(size: nat)
    | GetVariable(name: string)
    | SetVariable(name: string, attributes: set<VarAttr>, data: seq<byte>)

  /** The place a run stopped: every UK_EFI_CRASH and UK_CRASH of efi.c. */
  datatype Fatal =
    | DummyMapQuery | MapAlloc | MapQuery | FreePrevMap | SecondExitFailure
    | MatAlloc | RtInsert | FreeRtMrds | LegacyHiMem | MrdInsert | SipiVector
    | ImageProtocol | SfsProtocol | OpenVolumeFailed | PathTooLong | OpenFileFailed
    | InfoDummy | InfoAlloc | InfoQuery | FileAlloc | FileRead | FreeInfo
    | CmdlAlloc | CmdlOverflow | CmdlInsert | InitrdInsert | DtbInsert
    | NoBootinfo | MorGet | MorSet

  /** UK_CRASH rather than UK_EFI_CRASH: the sites reached after boot
      services are gone, where no firmware reset is available. */
  predicate KernelCrash(f: Fatal)
  {
    f == MrdInsert || f == SipiVector
  }

  /** A stage either completes with a value or ends in a crash; both carry
      the firmware calls made, in order. */
  datatype Outcome<T> = Done(value: T, calls: seq<FwCall>) | Crashed(calls: seq<FwCall>, site: Fatal)

  /** The same outcome preceded by calls made earlier. */
  function After<T>(pre: seq<FwCall>, o: Outcome<T>): (r: Outcome<T>)
    ensures r.Done? <==> o.Done?
    ensures r.calls == pre + o.calls
    ensures r.Done? ==> r.value == o.value
    ensures r.Crashed? ==> r.site == o.site
  {
    match o
    case Done(v, c) => Done(v, pre + c)
    case Crashed(c, f) => Crashed(pre + c, f)
  }

  /** A firmware call whose reply must be `want`: any other reply stops the
      run at `site`, otherwise the run goes on with `rest`. */
  function Expect<T>(call: FwCall, reply: Status, want: Status, site: Fatal, rest: Outcome<T>): (r: Outcome<T>)
    ensures r.Done? <==> reply == want && rest.Done?
    ensures r.calls == (if reply == want then [call] + rest.calls else [call])
    ensures r.Done? ==> r.value == rest.value
    ensures r.Crashed? ==> r.site == (if reply == want then rest.site else site)
  {
    if reply != want then Crashed([call], site) else After([call], rest)
  }
}

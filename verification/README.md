# Unikraft EFI stub handoff and netdev framework, modelled in Dafny

This project models two independent, sequential parts of the Unikraft
kernel.

The first is the EFI boot stub of the KVM platform, `plat/kvm/efi.c`. It
runs while the UEFI firmware still owns the machine. It:

- reads the command line, initrd and device tree through firmware boot
  services;
- converts the runtime-services entries of the Memory Attributes Table
  into kernel memory regions;
- takes the final memory map with the dummy-query / allocate / query /
  `ExitBootServices` protocol, retried once;
- classifies every UEFI memory descriptor into a kernel memory region;
- records everything in the boot record and hands over to the kernel.

It can also write the `MemoryOverwriteRequestControl` variable of
section 4 of the TCG Platform Reset Attack Mitigation Specification 1.10.
Memory types, attribute bits and the memory-map protocol follow sections
7.2 and 7.4 of the UEFI Specification. The Memory Attributes Table
follows section 4.6.

The second is the device-independent layer of the network-device
library, `lib/uknetdev/netdev.c`. It covers:

- registration with sequential ids, and lookup by id;
- the UNPROBED → UNCONFIGURED → CONFIGURED → RUNNING lifecycle and its
  guards;
- queues that are configured once;
- the clamping of queue maxima;
- the precedence between command-line overwrites and driver answers for
  the extended interface information.

Everything is pure functions over immutable datatypes:

- **Firmware calls** are scripted replies. Each reply is a status from a
  closed enumeration, plus the values the call hands back.
- **Stage results.** Every EFI stage returns
  `Outcome<T> = Done(value, calls) | Crashed(calls, site)`, where
  `calls` is the ordered log of firmware calls made.
- **Crashes.** `UK_EFI_CRASH` and `UK_CRASH` are the terminal `Crashed`
  outcome, tagged with the site that failed. `KernelCrash` tells the two
  apart: the kernel-side crash is used after boot services are gone.
- **The region list** (`ukplat_memregion_list_insert`, `_coalesce`, the
  legacy high-memory hole and the SIPI vector) is an abstract
  collaborator. It is recorded as a log of operations, and a `room` count
  decides when an insertion fails.
- **Driver operations of a network device** are oracles. An absent
  operation is `None`; a present one is the value it returns.

Files and modules:

- `common.dfy` (Common): integer widths, errno values, `DIV_ROUND_UP`,
  `Option`.
- `efi_base.dfy` (EfiBase): UEFI constants and memory types, firmware
  calls, crash sites, `Outcome`.
- `efi_strings.dfy` (EfiStrings): `ascii_to_utf16`, `utf16_to_ascii`,
  and the corrected path converter.
- `efi_memmap.dfy` (EfiMemMap): `uk_efi_md_to_bi_mrd` and the walk over
  the final map.
- `efi_mat.dfy` (EfiMat): `uk_efi_rt_md_to_bi_mrds`, as written and
  corrected.
- `efi_exit.dfy` (EfiExitBs): `uk_efi_get_mmap_and_exit_bs`.
- `efi_payload.dfy` (EfiPayload): the image handle, `uk_efi_read_file`,
  and command-line acquisition.
- `efi_bootinfo.dfy` (EfiBootinfo): `uk_efi_setup_bootinfo_*`, the
  reset-attack mitigation, and `uk_efi_main`.
- `netdev.dfy` (NetDev): `lib/uknetdev/netdev.c`.

The boot record is assembled with the corrected definitions recorded
under "## Findings":

- the attribute-table conversion;
- the page count of file buffers;
- the conversion of file paths to UTF-16, which no longer writes past
  the path buffer (which paths are refused stays as written).

The as-written definitions sit beside them, with lemmas exhibiting each
discrepancy.

The initrd step (`plat/kvm/efi.c:561-586`) only inserts an INITRD region
and sets no boot-record field; only the device tree sets `bi->dtb`.

## Model

| member | source | states |
|---|---|---|
| EfiBase.MemTypeOf | plat/kvm/efi.c:147-203 | exactly the codes above 14 are unlisted types, which reach the default branch, and they keep their code |
| EfiBase.Expect | plat/kvm/efi.c:67-74 | one checked firmware call: the stage continues exactly when the reply is the wanted status; otherwise it stops at that call's site with the call logged |
| EfiStrings.Widen | plat/kvm/efi.c:88-89 | the UTF-16 layout: output twice as long, character k at byte 2k and 0 at byte 2k+1 |
| EfiStrings.EncodeFrom | plat/kvm/efi.c:84-95 | the conversion loop from character k: with the bound hit, the widened prefix up to max_len16/2 and __SZ_MAX; otherwise the widened rest, two zero bytes, and 2n+2 |
| EfiStrings.AsciiToUtf16 | plat/kvm/efi.c:80-96 | __SZ_MAX exactly when the even byte index meets max_len16 before the NUL; otherwise returns 2n+2 with char k at byte 2k, 0 at 2k+1 and a zero unit at the end |
| EfiStrings.DecodeFrom | plat/kvm/efi.c:103-113 | the copy loop from unit k: __SZ_MAX exactly when max_len+1 units from k have non-zero low bytes; otherwise stops at the first zero low byte, returning count+1, with the low bytes then a NUL |
| EfiStrings.Utf16ToAscii | plat/kvm/efi.c:99-114 | copies the low byte of each unit until a zero low byte and returns count+1 with a terminating NUL, or __SZ_MAX exactly when max_len+1 leading units are non-zero |
| EfiStrings.NarrowWiden | plat/kvm/efi.c:80-114 | taking the low bytes of a widened string gives back the string, whatever follows it |
| EfiStrings.DecodeEncode | plat/kvm/efi.c:80-114 | round trip: utf16_to_ascii of ascii_to_utf16's output, bounded by its unit count, gives back the NUL-free string plus terminator and returns n+1 |
| EfiStrings.CmdlineFitsHalfSize | plat/kvm/efi.c:524-535 | a load-options conversion that succeeds fits in the size/2+1 bytes allocated for it |
| EfiStrings.EncodeUnitsFrom | plat/kvm/efi.c:84-95 | the corrected loop from character k with the bound counted in units: __SZ_MAX exactly when the string exceeds the bound; the output never exceeds the buffer |
| EfiStrings.AsciiToUtf16Units | plat/kvm/efi.c:80-96 | the corrected converter: refuses exactly the strings longer than the unit bound, and never writes more than bound+1 units |
| EfiStrings.PathBoundNeverFires | plat/kvm/efi.c:457-460 | a 4096-character path is converted in full as written (8194 bytes into an 8192-byte buffer), while the corrected converter refuses it |
| EfiMemMap.MdToBiMrd | plat/kvm/efi.c:142-217 | -EINVAL exactly for unknown types; -EEXIST exactly for loader code/data and for runtime code/data when the table flag is set; otherwise a region exactly when the range test passes, with pbase = vbase = max(start, PAGE_SIZE), length ≥ PAGE_SIZE, the descriptor's end, and the table's type and flags |
| EfiMemMap.ClassificationTable | plat/kvm/efi.c:147-204 | the classification is exhaustive, each outcome stated as an if-and-only-if over type codes: RESERVED+READ+MAP for 0, 8, 9, 10, 13, 14; RESERVED+READ+WRITE+MAP for MMIO and for runtime code/data without the table; FREE+READ+WRITE for 3, 4, 7; skipped for loader code/data and for runtime code/data with the table; unknown above 14 |
| EfiMemMap.MatOnlyAffectsRuntime | plat/kvm/efi.c:165-172 | the attribute-table flag changes the result only for runtime-services code and data |
| EfiMemMap.TranslatedFlags | plat/kvm/efi.c:154-198 | every region produced is readable and never executable; FREE exactly for boot-services code/data and conventional memory, and only RESERVED regions are mapped |
| EfiMemMap.RegionCoversDescriptor | plat/kvm/efi.c:206-214 | an accepted region covers exactly the descriptor's addresses from PAGE_SIZE on, so page 0 is never covered |
| EfiMemMap.RangeRejectsOnlyZeroPage | plat/kvm/efi.c:206-210 | for page-aligned descriptors of a kept type, -ENOMEM exactly when the descriptor is empty or lies within page 0 |
| EfiMemMap.AcceptedRegions | plat/kvm/efi.c:392-401 | the map walk's insertions: no more than the descriptors; every accepted descriptor's region is present, and every region comes from an accepted descriptor |
| EfiMemMap.AcceptedRegionsStep | plat/kvm/efi.c:393-401 | one more descriptor appends its own region, if accepted, after those of the earlier descriptors, so insertions follow map order |
| EfiMemMap.WalkMap | plat/kvm/efi.c:392-401 | the pointer walk at stride desc_sz while below map_start + map_sz inserts exactly the accepted regions, in map order |
| EfiMemMap.ZeroPageScenario | plat/kvm/efi.c:206-210 | a concrete map: boot-services data at 1 MiB becomes one FREE region; a reserved descriptor at page 0 is dropped |
| EfiMat.FindMat | plat/kvm/efi.c:306-318 | none exactly when no configuration table carries the attribute-table GUID; otherwise the first such table's pointer |
| EfiMat.RtPerms | plat/kvm/efi.c:343-352 | READ always; WRITE exactly when XP is set and RO is clear; EXECUTE exactly when XP is clear |
| EfiMat.RtRegion | plat/kvm/efi.c:338-352 | a runtime entry becomes RESERVED with pbase = vbase = physical_start, length pages·4 KiB modulo 2^64, and MAP plus the permissions |
| EfiMat.RtRegionWriteXorExecute | plat/kvm/efi.c:343-352 | no runtime region is both writable and executable, and every one is mapped and readable |
| EfiMat.RuntimeRun | plat/kvm/efi.c:334-354 | the end of the run of runtime entries starting at i: all entries before it are runtime, the one at it is not |
| EfiMat.FillSlots | plat/kvm/efi.c:334-355 | the loop from slot i: with the cursor in step, slots are written until the first non-runtime entry; once the cursor lags, no slot is written |
| EfiMat.MatSlots | plat/kvm/efi.c:334-355 | as written, slot k is filled exactly when k lies within the leading run of runtime entries; every later slot stays unwritten |
| EfiMat.MatCursorStalls | plat/kvm/efi.c:334-354 | a non-runtime entry followed by a runtime one leaves both slots unwritten |
| EfiMat.IntendedRtRegions | plat/kvm/efi.c:334-355 | the corrected conversion: exactly the runtime entries' regions, no more of them than entries |
| EfiMat.IntendedRecoversStalledEntries | plat/kvm/efi.c:334-355 | on the stalling input, the corrected conversion yields the runtime entry's region |
| EfiMat.AllRuntimeTablesAgree | plat/kvm/efi.c:334-355 | when every entry is runtime, the as-written slots and the corrected regions coincide slot by slot |
| EfiMat.IntendedAllRuntime | plat/kvm/efi.c:334-355 | when every entry is runtime, the corrected conversion maps entry k to slot k |
| EfiMat.RtMdToBiMrds | plat/kvm/efi.c:295-356 | as written: the flag is set exactly when a table entry has the GUID; without one the count is 0 and no call is made; with a table the pool is allocated for number_of_entries slots and holds exactly the slots the loop as written fills (MatSlots); a failed allocation is the only crash, at that allocation and after it alone |
| EfiMat.RtMdToBiMrdsIntended | plat/kvm/efi.c:295-356 | the corrected overlay: the same flag, calls and crash, with the corrected regions when a table pointer was obtained and none otherwise |
| EfiExitBs.MapBufferSize | plat/kvm/efi.c:257-258 | the buffer asked for is the reported size plus desc_sz·10 |
| EfiExitBs.RunPass | plat/kvm/efi.c:250-282 | one pass: completes exactly when the dummy query reports BUFFER_TOO_SMALL and the allocation and real query succeed, with the crash site naming the first failure; exits exactly when ExitBootServices succeeds, yielding that query's map and key |
| EfiExitBs.BufferFitsAllocation | plat/kvm/efi.c:257-263 | the pages allocated hold the enlarged size and are the least count that does |
| EfiExitBs.GetMmapAndExitBs | plat/kvm/efi.c:219-283 | completes exactly when the first pass exits, or it is refused and the free and the second pass succeed; the last call is ExitBootServices with the snapshot's key; at most two exits; a second refusal is fatal; on retry the first buffer is freed by DIV_ROUND_UP of the post-query size |
| EfiExitBs.SecondPass | plat/kvm/efi.c:229-282 | the second pass keeps the earlier log as a prefix; it completes exactly when the pass is prepared and exits, with that pass's map and key and two exits in all; a refusal now is the "second time" crash |
| EfiExitBs.Retry | plat/kvm/efi.c:228-239 | after a refusal the next call frees the first buffer by DIV_ROUND_UP of the size the real query wrote back; a failed free is fatal; otherwise the run completes exactly when the second pass exits |
| EfiExitBs.PassExitCalls | plat/kvm/efi.c:268-282 | a pass calls ExitBootServices once when it reaches it and never otherwise |
| EfiExitBs.RetryFreeMayLeak | plat/kvm/efi.c:233-236 | any refused first pass whose dummy query reports 4000 bytes with a 48-byte stride and whose real query writes back 3952: two pages are allocated, yet the retry frees one, because the count comes from the post-query size |
| EfiPayload.GetUkImgHndl | plat/kvm/efi.c:412-428 | a cached image is returned with no call; otherwise one HandleProtocol call, whose failure is fatal |
| EfiPayload.ImageLookupCached | plat/kvm/efi.c:417-419 | after one successful lookup, later lookups make no firmware call and return the same image |
| EfiPayload.BootPath | plat/kvm/efi.c:37 | the configured name behind the ten characters of \EFI\BOOT\, still NUL-free |
| EfiPayload.FilePages | plat/kvm/efi.c:486-503 | the corrected page count: the least number of pages with room for the file and its terminator |
| EfiPayload.TerminatorOverrunsAsWritten | plat/kvm/efi.c:490-503 | for a file whose length is a whole number of pages, the count as written ends exactly at the file's end, so the terminator falls outside; the corrected count keeps it inside |
| EfiPayload.BootPath16 | plat/kvm/efi.c:456-460 | a path is refused exactly when the length test as written refuses it, that is from 2048 characters on; otherwise it is widened with a zero unit and fits the UK_EFI_MAXPATHLEN-byte bound of that test |
| EfiPayload.ReadContent | plat/kvm/efi.c:486-503 | the content stage completes exactly when AllocatePages, Read and FreePool all succeed, with those three calls, the buffer base, the length Read delivered, the corrected page count and the bytes plus a NUL; it stops only at its own sites |
| EfiPayload.ReadOpened | plat/kvm/efi.c:468-503 | once the file is open: completes exactly when the dummy GetInfo reports BUFFER_TOO_SMALL and the info allocation, the real GetInfo and the content stage succeed, with the six calls in order; the page allocation uses the corrected page count |
| EfiPayload.ReadPath | plat/kvm/efi.c:441-503 | completes exactly when every reply is as wanted and a converted path is given; the path refusal happens exactly after SimpleFileSystem and OpenVolume succeed with no converted path; never a kernel crash; the page allocation uses the corrected page count |
| EfiPayload.ReadBootFile | plat/kvm/efi.c:431-504 | completes exactly when every reply is as wanted and the full path has fewer than 2048 characters; the path is refused exactly when it has 2048 or more, after SimpleFileSystem and OpenVolume succeed; yields the buffer base, the length Read reported, and the bytes followed by a NUL inside the pages allocated |
| EfiPayload.ReadBootFileCalls | plat/kvm/efi.c:441-501 | a completing read makes exactly the nine firmware calls of the protocol, in order |
| EfiPayload.ReadBootFileCrashSites | plat/kvm/efi.c:431-504 | every stop in the file read is a boot-services crash |
| EfiPayload.PathLimitAsWritten | plat/kvm/efi.c:457-460 | as written, a path is refused exactly when it has 2048 characters or more, and only after all 2n+2 bytes have been stored |
| EfiPayload.LoadCmdline | plat/kvm/efi.c:515-543 | load options take priority and allocate size/2+1 bytes; with load options the run stops at that allocation exactly when it fails, and otherwise completes exactly when a zero unit occurs among the first size/2+1 units, with a command line exactly when the allocated base is non-NULL, at that base; otherwise a non-empty configured name reads the file, with the read's calls, completion and crash site, and a command line exactly when the file's buffer is non-NULL, holding its base, its length and its bytes plus terminator; with neither, no command line and no call |
| EfiPayload.LoadCmdlineCrashSites | plat/kvm/efi.c:523-543 | every stop while obtaining the command line is a boot-services crash |
| EfiPayload.LoadOptionsCmdline | plat/kvm/efi.c:523-538 | the overflow crash happens exactly when size/2+1 leading units are non-zero; otherwise the command line is the low bytes up to the first zero unit plus a NUL, with len counting the NUL |
| EfiPayload.CmdlineLengthConventions | plat/kvm/efi.c:524-558 | the recorded cmdline_len includes the terminator on the load-options path and excludes it on the file path |
| EfiBootinfo.InsertAll | plat/kvm/efi.c:375-379 | inserting the runtime regions fails exactly when they exceed the room left; otherwise each is appended in order |
| EfiBootinfo.Policy | plat/kvm/efi.c:13-20 | allocations use any-pages exactly when paging is configured; the ceiling is the configured uk_efi_alloc_max_paddr |
| EfiBootinfo.PayloadRegion | plat/kvm/efi.c:548-552 | a payload region is identity-mapped at the buffer, has the buffer's length, READ and MAP, and is neither FREE nor RESERVED |
| EfiBootinfo.SetupCmdl | plat/kvm/efi.c:506-559 | completes exactly when the image is known or its lookup succeeds, the command line is obtained, and a loaded one finds room; no command line leaves the record alone; a loaded one sets cmdline and cmdline_len to its buffer and length and appends exactly its CMDLINE region; no other field changes; any stop is a boot-services crash |
| EfiBootinfo.RecordCmdline | plat/kvm/efi.c:545-558 | a NULL command line leaves the record alone; otherwise cmdline and cmdline_len take the buffer and its length and exactly one CMDLINE region is appended, failing exactly when the list is full; no other field changes |
| EfiBootinfo.LoadPayload | plat/kvm/efi.c:561-615 | an empty configured name does nothing and makes no call; otherwise the step completes exactly when the image is known or its lookup succeeds, the file is read in full and the list has room, and stops at its own insertion site exactly when only the room is missing; a completed step appends exactly one region of the payload's type at the file's base, caches the image, and changes nothing else |
| EfiBootinfo.RecordPayload | plat/kvm/efi.c:578-585 | given the read's outcome: completes exactly when the read did and the list has room, inserting the buffer's region with its length; stops at the step's insertion site exactly when the list is full; makes no call of its own |
| EfiBootinfo.LoadFiles | plat/kvm/efi.c:630-631 | completes exactly when the image is known whenever a name is configured, both configured files are read in full and their regions fit; the initrd region, then the device-tree region, each only when configured; only the device tree sets a boot-record field, dtb |
| EfiBootinfo.SlotOpsPerSlot | plat/kvm/efi.c:375-379 | slot k of the pool is inserted as its region when the loop wrote it, and as an indeterminate region when it did not |
| EfiBootinfo.InsertSlots | plat/kvm/efi.c:375-379 | inserting every slot fails exactly when the slots exceed the room left; otherwise one insert per slot is appended, in slot order |
| EfiBootinfo.SetupRtMrdsAsWritten | plat/kvm/efi.c:367-384 | as written: completes exactly when the legacy hole (x86-64) and all rt_mrds_count slots fit and the free succeeds; the log grows by the hole and exactly rt_mrds_count inserts, unwritten slots included, then FreePool |
| EfiBootinfo.StalledSlotsStillInserted | plat/kvm/efi.c:334-379 | as written, a table of a non-runtime then a runtime entry makes the stage fail with one free slot, and with two insert two indeterminate regions and no real one |
| EfiBootinfo.StalledRegionRecovered | plat/kvm/efi.c:334-379 | on the same table the corrected stage completes with one free slot and inserts the runtime entry's region |
| EfiBootinfo.RtMrdsAgreeOnRuntimeTables | plat/kvm/efi.c:334-384 | on tables of runtime entries only, the stage as written and the corrected one give the same outcome: regions, calls and failures |
| EfiBootinfo.SetupRtMrds | plat/kvm/efi.c:367-384 | corrected: completes exactly when the legacy hole (x86-64) and all attribute-table regions fit and the free succeeds, leaving the hole, then the table's regions in order, then FreePool of rt_mrds, or of a pointer never assigned when no table was obtained; a full list on x86-64 crashes before any call; a completed stage leaves the room less the hole and the regions |
| EfiBootinfo.SetupMapMrds | plat/kvm/efi.c:390-409 | no call after the snapshot's; once boot services are exited it completes exactly when the accepted regions fit and (x86-64) the SIPI vector is obtained, appending the accepted regions in map order, one coalesce and the SIPI vector; every failure after the exit is a kernel crash |
| EfiBootinfo.MrdsSteps | plat/kvm/efi.c:358-410 | corrected: the region steps in order over the table's and the snapshot's outcomes; completes exactly when the table conversion, the release of its pool, the snapshot and exit and (x86-64) the SIPI vector succeed and the hole, table regions and accepted regions fit; whenever it completes or crashes in the kernel, the last call is ExitBootServices |
| EfiBootinfo.SetupMrds | plat/kvm/efi.c:358-410 | corrected: completes exactly when MrdsComplete holds of the firmware's replies and the room; the region log grows by the legacy hole, the corrected attribute-table regions, the accepted map regions with the table flag, one coalesce and the SIPI vector, in that order; it ends with ExitBootServices whenever it completes or crashes in the kernel |
| EfiBootinfo.SetupPayloads | plat/kvm/efi.c:627-631 | on a freshly tagged record: completes exactly when the image lookup succeeds, the command line is obtained, the configured files are read and their regions fit (PayloadsComplete), using up one slot per region; the region of the command line the firmware's replies yield, then initrd, then device tree, each only when present; cmdline and cmdline_len are that command line's buffer and length (0 without one), dtb the device tree's buffer; nothing else is set |
| EfiBootinfo.SetupBootinfo | plat/kvm/efi.c:617-635 | a missing boot record crashes with no call; otherwise it completes exactly when the payload steps complete and the memory-region steps complete on the room they leave; a completed run holds the tags "EFI_STUB"/"EFI", cmdline and cmdline_len from the command line obtained, the region log in the order that command line, initrd, device tree, memory regions, and efi_st is the firmware's system table |
| EfiBootinfo.SetupBootinfoExits | plat/kvm/efi.c:632 | whenever the handoff completes, or crashes on the kernel side, the last firmware call is ExitBootServices |
| EfiBootinfo.CoalesceOnce | plat/kvm/efi.c:393-403 | coalesce appears exactly once in the region log, after every insertion, followed only by the SIPI vector on x86-64 |
| EfiBootinfo.RuntimeCountedOnce | plat/kvm/efi.c:165-172 | with the table flag set, no runtime-services descriptor from the map becomes a region, so runtime memory comes only from the table |
| EfiBootinfo.NullMatDropsRuntime | plat/kvm/efi.c:306-320 | a table entry with a null pointer sets the flag but yields no regions, so runtime-services memory is then not recorded at all |
| EfiBootinfo.ResetAttackMitigation | plat/kvm/efi.c:640-670 | disabled: nothing; otherwise GetVariable first; UNSUPPORTED or NOT_FOUND skip; any other failure crashes; on success the variable is set to 1 with NON_VOLATILE, BOOTSERVICE_ACCESS and RUNTIME_ACCESS, and a failure there crashes |
| EfiBootinfo.EfiMain | plat/kvm/efi.c:672-686 | completes exactly when the mitigation and the boot-record setup both complete, with the calls of the former before those of the latter |
| EfiBootinfo.MorSetBeforeExit | plat/kvm/efi.c:677-682 | when the variable is written, GetVariable and SetVariable are the first two calls and ExitBootServices the last |
| NetDev.NonEmpty | lib/uknetdev/netdev.c:126-137 | an argument survives exactly when it is present and non-empty, unchanged |
| NetDev.FilterEmpty | lib/uknetdev/netdev.c:125-137 | after filtering, no overwrite is the empty string |
| NetDev.FilterEmptyKeeps | lib/uknetdev/netdev.c:125-137 | arguments with no empty string pass through unchanged, filtering twice equals filtering once, and a non-empty CIDR is kept while an empty one is dropped |
| NetDev.AllocEinfo | lib/uknetdev/netdev.c:95-159 | NULL exactly for ids at or beyond MAXCOUNT; -ENOMEM exactly when the allocation fails below it; otherwise the filtered arguments |
| NetDev.NewDevice | lib/uknetdev/netdev.c:73-92 | a new record carries the given id and driver name and starts UNPROBED |
| NetDev.Register | lib/uknetdev/netdev.c:162-202 | fails exactly on a failed data allocation or an einfo error, leaving list and count unchanged; otherwise appends an UNPROBED device at the tail with id = the old count, the driver's name and, when einfo is built in and the id is below MAXCOUNT, the filtered overwrites (none otherwise); returns that id and increments the 16-bit count |
| NetDev.Get | lib/uknetdev/netdev.c:209-220 | the first listed device with the id; none exactly when no device has it |
| NetDev.RegisterSequential | lib/uknetdev/netdev.c:185-201 | below 65535 registrations, ids stay equal to list positions and the count to the list length |
| NetDev.GetSequential | lib/uknetdev/netdev.c:209-220 | with sequential ids, every id below the count is found at its own position and no other id is found |
| NetDev.CounterWraps | lib/uknetdev/netdev.c:201 | the registration that hands out id 65535 leaves the count at 0 |
| NetDev.Probe | lib/uknetdev/netdev.c:246-262 | a missing probe counts as 0; a negative result leaves the device UNPROBED; otherwise it becomes UNCONFIGURED; the result is returned |
| NetDev.InfoGet | lib/uknetdev/netdev.c:264-284 | both queue maxima are the smaller of the driver's value and CONFIG_LIBUKNETDEV_MAXNBQUEUES |
| NetDev.Configure | lib/uknetdev/netdev.c:384-424 | -EINVAL unless UNCONFIGURED or when either queue count exceeds its clamped maximum; otherwise the driver's result is returned, and the device becomes CONFIGURED exactly when it is non-negative; no other state change can happen |
| NetDev.RxqConfigure | lib/uknetdev/netdev.c:514-562 | -EINVAL unless CONFIGURED; -EBUSY when the slot holds a queue or NULL; -ENOMEM with the slot untouched when the event handler fails; 0 exactly when the handler and driver succeed, storing the queue; a driver error is stored in the slot and its code returned |
| NetDev.TxqConfigure | lib/uknetdev/netdev.c:564-590 | the same guards and outcomes as receive queues, without the event handler |
| NetDev.QueueConfiguredOnce | lib/uknetdev/netdev.c:535-537 | after a queue is configured, configuring the same slot again returns -EBUSY and changes nothing |
| NetDev.FailedQueueRetryable | lib/uknetdev/netdev.c:548-552 | after a driver failure the slot holds the error, so the next attempt reaches the driver again |
| NetDev.Start | lib/uknetdev/netdev.c:592-611 | -EINVAL unless CONFIGURED; otherwise the driver's result, and RUNNING exactly when it is non-negative |
| NetDev.OptionalSet | lib/uknetdev/netdev.c:613-631 | hwaddr_set (and mtu_set, lines 701-717): -ENOTSUP without the driver operation, its result otherwise |
| NetDev.HwaddrGet | lib/uknetdev/netdev.c:633-649 | NULL without the driver operation, the driver's address otherwise |
| NetDev.PromiscuousSet | lib/uknetdev/netdev.c:667-683 | -ENOTSUP without the driver operation |
| NetDev.PromiscuousNormalised | lib/uknetdev/netdev.c:682 | the driver only sees 0 or 1: every non-zero mode behaves like 1 |
| NetDev.EinfoGet | lib/uknetdev/netdev.c:286-354 | ADDR and MASK are NULL whenever a CIDR exists in the overwrite or from the driver, else the driver's answer; the six other kinds return a present overwrite, else the driver's answer, else NULL |
| NetDev.EmptyOverwriteDefers | lib/uknetdev/netdev.c:125-137 | an empty command-line argument does not answer; the driver does |
| NetDev.Apply | lib/uknetdev/netdev.c:84-89 | no framework call changes a device's id, driver name or overwrites |
| NetDev.ApplyStep | lib/uknetdev/netdev.c:246-611 | each call keeps the state or advances it by exactly one step |
| NetDev.RunMonotone | lib/uknetdev/netdev.c:246-611 | along any sequence of calls the state never moves backwards, a RUNNING device stays RUNNING, and the id never changes |

## Left out

- Console output, `uk_efi_printf` and its formatting, `uk_efi_cls`, and all `uk_pr_*` logging: these are I/O.
- `uk_efi_jmp_to_kern`: an assembly jump into the kernel.
- `uk_efi_do_crash`: `ResetSystem` is where a `Crashed` outcome ends; the reset itself is not modelled.
- The contents of `ukplat_memregion_list_insert`, `_coalesce`, `_insert_legacy_hi_mem` and `ukplat_memregion_alloc_sipi_vect`: their code is not part of this model. They are recorded operations, and only insertion can fail in the model.
- The physical memory behind pointers: buffers are sequences; the map is a sequence of descriptors plus a stride. `desc_sz` is assumed non-zero and at least the descriptor size.
- EfiMat.RtRegion: wraps the length modulo 2^64 like the C code, but `*rt_mrds_count * sizeof(**rt_mrds)` overflowing the pool size is not modelled.
- EfiExitBs.GetMmapAndExitBs: `DIV_ROUND_UP` works on unbounded integers, so a size near 2^64 does not wrap.
- EfiBootinfo.SetupRtMrds: the corrected stage; it inserts the corrected attribute-table regions, not the rt_mrds_count slots of the pool. The as-written stage is EfiBootinfo.SetupRtMrdsAsWritten. Freeing a pointer that was never assigned is recorded as `FreePool(IndeterminatePointer)`, as in the as-written stage.
- EfiBootinfo.MrdsSteps: takes the corrected attribute-table regions, so it does not describe the as-written insertion of every slot.
- EfiBootinfo.SetupMrds: built on the corrected attribute-table conversion; the as-written insertion is compared with it by EfiBootinfo.StalledSlotsStillInserted and EfiBootinfo.RtMrdsAgreeOnRuntimeTables.
- EfiPayload.BootPath16: converts with the corrected converter, so a path of 4096 characters or more is refused without first being written past `file_name16`; which paths are refused is as written.
- EfiPayload.ReadBootFile: built on BootPath16 and on the corrected page count, so the terminator always lands inside the buffer.
- EfiBootinfo.SetupRtMrdsAsWritten: freeing a pointer that was never assigned is recorded as `FreePool(IndeterminatePointer)` with the reply scripted; what real firmware does with it is not modelled.
- EfiBootinfo.SetupBootinfo: built on the corrected attribute-table conversion, file page count and path conversion from "## Findings"; the as-written versions are modelled and compared separately.
- EfiBootinfo.SetupBootinfo: the record is assumed to start zeroed with an empty region list (Tagged). In the source `ukplat_bootinfo_get` returns a record pre-filled at build time, and without a command line `cmdline` and `cmdline_len` keep whatever it held; the model reports 0 there.
- `GetVariable` is called with a NULL buffer and `data_sz` uninitialised; only its status is modelled.
- Global state across calls (`uk_efi_st`, `uk_efi_bs`, the cached image handle) is threaded explicitly as parameters.
- NetDev.Configure: `CONFIG_LIBUKNETDEV_STATS` is not modelled, because `stats.h` is not part of this model. With it, a successful configure would return the result of `uk_netdev_stats_init` instead of the driver's.
- NetDev.RxqConfigure: `_create_event_handler` is reduced to whether it succeeds. It fails with -ENOMEM only when a dispatcher thread cannot be created. The dispatcher threads, semaphores and `uk_sched_thread_create`/`_terminate` are concurrency and are left out, and so is `_destroy_event_handler`.
- `uk_nextarg` tokenising of the `ip=` parameter and libparam registration: these are foreign. The six overwrite fields arrive already split.
- `uk_netdev_count`, `uk_netdev_id_get`, `uk_netdev_drv_name_get`, `uk_netdev_state_get`, `uk_netdev_promiscuous_get`, `uk_netdev_mtu_get`, `uk_netdev_rxq_info_get` and `uk_netdev_txq_info_get`: they return a stored field or the mandatory driver operation's answer unchanged, and have nothing to verify beyond the datatype.
- The `UK_ASSERT`s of netdev.c: they are preconditions. `Apply` and `Run` treat a call that would trip one as ending the sequence.
- NetDev.PromiscuousSet: what a driver does with the mode is an oracle; only the normalisation and the -ENOTSUP guard are stated.

## Findings

| source | as written | input that shows it | evidently intended | confidence | as-written member | corrected member |
|---|---|---|---|---|---|---|
| plat/kvm/efi.c:334-354 | `continue` on a non-runtime entry skips the cursor advance at line 354, so `mat_md` stays on that entry for the rest of the loop | a Memory Attributes Table whose entries are a non-runtime entry, then a runtime one: both slots stay unwritten and are still inserted | every runtime entry is converted, whatever precedes it | not executed | EfiBootinfo.StalledSlotsStillInserted | EfiMat.IntendedRtRegions |
| plat/kvm/efi.c:488-503 | the buffer gets `DIV_ROUND_UP(len, PAGE_SIZE)` pages, yet the terminator is written at offset `len` | a 4096-byte file (or an empty one): the allocation ends at the file's end and the NUL lands one byte past it | allocate room for `len + 1` bytes | not executed | EfiPayload.TerminatorOverrunsAsWritten | EfiPayload.FilePages |
| plat/kvm/efi.c:457-460 | `ascii_to_utf16` gets the odd bound 4095, which its even index never equals; the length test compares bytes with a unit count after the conversion | a 4096-character path: 8194 bytes are written into the 8192-byte `file_name16` before the test rejects it | stop converting at the buffer's unit capacity and refuse longer paths before writing | not executed | EfiStrings.PathBoundNeverFires | EfiStrings.AsciiToUtf16Units |

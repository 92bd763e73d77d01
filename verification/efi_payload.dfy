/** Payload loading of the EFI boot stub (plat/kvm/efi.c:412-615): the
    cached loaded-image lookup, reading a file of the boot volume into
    fresh pages, and the command-line precedence between per-launch load
    options and a configured file. */
module EfiPayload {
  import opened Common
  import opened EfiBase
  import opened EfiStrings

  /** EFI_LOADED_IMAGE_PROTOCOL as far as the stub reads it. loadOptions is
      the memory at the LoadOptions pointer (meaningless when the pointer is
      NULL, which hasLoadOptions records). */
  datatype LoadedImage = LoadedImage(hasLoadOptions: bool, loadOptions: seq<byte>,
                                     loadOptionsSize: nat, deviceHandle: nat)

  /** The firmware's answer to HandleProtocol(LOADED_IMAGE). */
  datatype ImageReply = ImageReply(status: Status, image: LoadedImage)

  /** uk_efi_get_uk_img_hndl (efi.c:412-428): a cached image is returned
      without a call; otherwise HandleProtocol is asked once, and a failure
      is fatal. */
  function GetUkImgHndl(cache: Option<LoadedImage>, selfHandle: nat, reply: ImageReply): (o: Outcome<LoadedImage>)
    ensures cache.Some? ==> o == Done(cache.value, [])
    ensures cache.None? ==> o.calls == [HandleProtocol(selfHandle, LoadedImageProtocol)]
    ensures cache.None? ==> (o.Crashed? <==> reply.status != Success)
    ensures o.Crashed? ==> o.site == ImageProtocol
    ensures cache.None? && o.Done? ==> o.value == reply.image
  {
    if cache.Some? then Done(cache.value, [])
    else Expect(HandleProtocol(selfHandle, LoadedImageProtocol), reply.status, Success, ImageProtocol,
                Done(reply.image, []))
  }

  /** Once the lookup has succeeded, caching its result makes every later
      lookup free of firmware calls and yields the same image. */
  lemma {:induction false} ImageLookupCached(selfHandle: nat, reply: ImageReply, later: ImageReply)
    requires GetUkImgHndl(None, selfHandle, reply).Done?
    ensures var first := GetUkImgHndl(None, selfHandle, reply);
            GetUkImgHndl(Some(first.value), selfHandle, later) == Done(first.value, [])
    ensures GetUkImgHndl(None, selfHandle, reply).value == reply.image
  {
  }

  /** "\EFI\BOOT\" in ASCII: configured file names are relative to it. */
  const BOOT_DIR: seq<byte> := [92, 69, 70, 73, 92, 66, 79, 79, 84, 92]

  /** UK_EFI_ABS_FNAME(name) */
  function BootPath(name: seq<byte>): (p: seq<byte>)
    ensures |p| == |name| + 10
    ensures NulFree(name) ==> NulFree(p)
  {
    BOOT_DIR + name
  }

  /** The firmware's replies to the file-reading sequence: SimpleFileSystem
      lookup, OpenVolume, Open, the dummy GetInfo and the info size it
      reported, the pool allocation, the real GetInfo and the FileSize it
      reported, the page allocation and the base it chose, Read and the
      bytes it delivered, and the FreePool of the info buffer. */
  datatype FileScript = FileScript(
    sfs: Status, volume: Status, open: Status,
    infoDummy: Status, infoSize: nat, infoAlloc: Status, info: Status, fileSize: nat,
    pages: Status, base: nat, read: Status, content: seq<byte>, freeInfo: Status)

  /** A file in memory: its buffer base, the length Read reported, the pages
      allocated and the bytes the buffer holds, terminator included. */
  datatype FileData = FileData(base: nat, len: nat, pages: nat, bytes: seq<byte>)

  /** The pages allocated for a file of len bytes plus the terminator
      stored after it: the least page count holding len + 1 bytes. */
  function FilePages(len: nat): (p: nat)
    ensures len < p * PAGE_SIZE
    ensures (p - 1) * PAGE_SIZE <= len
  {
    DivRoundUpBounds(len + 1, PAGE_SIZE);
    DivRoundUp(len + 1, PAGE_SIZE)
  }

  /** DIV_ROUND_UP(*len, PAGE_SIZE), the page count efi.c:488-491 allocates. */
  function FilePagesAsWritten(len: nat): nat
  {
    DivRoundUp(len, PAGE_SIZE)
  }

  /** For a file whose length is a whole number of pages (an empty file
      included) the allocation as written ends exactly at the file's end,
      so the terminator stored at offset len (efi.c:503) lands one byte past
      the buffer; with the corrected count it always lands inside. */
  lemma TerminatorOverrunsAsWritten(len: nat)
    requires len % PAGE_SIZE == 0
    ensures FilePagesAsWritten(len) * PAGE_SIZE == len
    ensures len < FilePages(len) * PAGE_SIZE
  {
  }

  /** The UTF-16 path handed to Open, or None when efi.c:459 refuses it
      as too long. The conversion is the corrected one from "## Findings",
      which never writes past the buffer; the length test is kept as
      written, so the path is refused exactly when the test as written
      refuses it: from 2048 characters on. */
  function BootPath16(name: seq<byte>): (p: Option<seq<byte>>)
    requires NulFree(name)
    ensures p.None? <==> PathRejectedAsWritten(BootPath(name))
    ensures p.None? <==> |name| + 10 >= UK_EFI_MAXPATHLEN / 2
    ensures p.Some? ==> p.value == Widen(BootPath(name)) + [0, 0] && |p.value| <= UK_EFI_MAXPATHLEN
  {
    PathLimitAsWritten(BootPath(name));
    var conv := AsciiToUtf16Units(BootPath(name), UK_EFI_MAXPATHLEN - 1);
    if conv.ret > UK_EFI_MAXPATHLEN then None else Some(conv.out)
  }

  /** The calls from the page allocation on, in order. */
  function ContentCalls(pol: AllocPolicy, s: FileScript): seq<FwCall>
  {
    [AllocatePages(pol.allocType, pol.ceiling, FilePages(s.fileSize)), ReadFile(s.fileSize),
     FreePool(FileInfoPool)]
  }

  /** The calls once the file is open, in order. */
  function OpenedCalls(pol: AllocPolicy, s: FileScript): seq<FwCall>
  {
    [GetFileInfo(0), AllocatePool(FileInfoPool, s.infoSize), GetFileInfo(s.infoSize)]
      + ContentCalls(pol, s)
  }

  /** The calls of a read that completes, in order. */
  function FileCalls(dev: nat, path16: seq<byte>, pol: AllocPolicy, s: FileScript): seq<FwCall>
  {
    [HandleProtocol(dev, SimpleFileSystemProtocol), OpenVolume, OpenFile(path16)] + OpenedCalls(pol, s)
  }

  /** The replies the last three calls need. */
  predicate ContentSucceeds(s: FileScript)
  {
    s.pages == Success && s.read == Success && s.freeInfo == Success
  }

  /** The replies needed once the file is open. */
  predicate OpenedSucceeds(s: FileScript)
  {
    && s.infoDummy == BufferTooSmall && s.infoAlloc == Success && s.info == Success
    && ContentSucceeds(s)
  }

  /** Every reply a completing read needs. */
  predicate ReadSucceeds(s: FileScript)
  {
    s.sfs == Success && s.volume == Success && s.open == Success && OpenedSucceeds(s)
  }

  /** The sites a read can stop at once the file is open. */
  predicate OpenedSite(f: Fatal)
  {
    f == InfoDummy || f == InfoAlloc || f == InfoQuery || f == FileAlloc || f == FileRead || f == FreeInfo
  }

  /** The end of uk_efi_read_file (efi.c:486-503): pages for the contents,
      Read, and the release of the info buffer. */
  function ReadContent(pol: AllocPolicy, s: FileScript): (o: Outcome<FileData>)
    requires |s.content| <= s.fileSize
    ensures o.Done? <==> ContentSucceeds(s)
    ensures o.Done? ==> o.calls == ContentCalls(pol, s)
    ensures o.Done? ==> o.value == FileData(s.base, |s.content|, FilePages(s.fileSize), s.content + [0])
    ensures o.Crashed? ==> OpenedSite(o.site)
  {
    var calls := ContentCalls(pol, s);
    if s.pages != Success then Crashed(calls[..1], FileAlloc)
    else if s.read != Success then Crashed(calls[..2], FileRead)
    else if s.freeInfo != Success then Crashed(calls, FreeInfo)
    else Done(FileData(s.base, |s.content|, FilePages(s.fileSize), s.content + [0]), calls)
  }

  /** uk_efi_read_file once the file is open (efi.c:468-503): the dummy
      GetInfo must report BUFFER_TOO_SMALL, then the info buffer is
      allocated and filled, then the contents are read. */
  function ReadOpened(pol: AllocPolicy, s: FileScript): (o: Outcome<FileData>)
    requires |s.content| <= s.fileSize
    ensures o.Done? <==> OpenedSucceeds(s)
    ensures o.Done? ==> o.calls == OpenedCalls(pol, s)
    ensures o.Done? ==> o.value == FileData(s.base, |s.content|, FilePages(s.fileSize), s.content + [0])
    ensures o.Crashed? ==> OpenedSite(o.site)
  {
    var calls := [GetFileInfo(0), AllocatePool(FileInfoPool, s.infoSize), GetFileInfo(s.infoSize)];
    if s.infoDummy != BufferTooSmall then Crashed(calls[..1], InfoDummy)
    else if s.infoAlloc != Success then Crashed(calls[..2], InfoAlloc)
    else if s.info != Success then Crashed(calls, InfoQuery)
    else After(calls, ReadContent(pol, s))
  }

  /** Every site uk_efi_read_file can stop at. */
  predicate ReadSite(f: Fatal)
  {
    f == SfsProtocol || f == OpenVolumeFailed || f == PathTooLong || f == OpenFileFailed || OpenedSite(f)
  }

  /** uk_efi_read_file from the file-system lookup on (efi.c:441-503),
      given the converted path or None when the path was refused. */
  function ReadPath(dev: nat, path16: Option<seq<byte>>, pol: AllocPolicy, s: FileScript): (o: Outcome<FileData>)
    requires |s.content| <= s.fileSize
    ensures o.Done? <==> ReadSucceeds(s) && path16.Some?
    ensures o.Crashed? && o.site == PathTooLong <==> s.sfs == Success && s.volume == Success && path16.None?
    ensures o.Crashed? ==> ReadSite(o.site) && !KernelCrash(o.site)
    ensures o.Done? ==> o.calls == FileCalls(dev, path16.value, pol, s)
    ensures o.Done? ==> o.value == FileData(s.base, |s.content|, FilePages(s.fileSize), s.content + [0])
  {
    var lookup := [HandleProtocol(dev, SimpleFileSystemProtocol), OpenVolume];
    if s.sfs != Success then Crashed(lookup[..1], SfsProtocol)
    else if s.volume != Success then Crashed(lookup, OpenVolumeFailed)
    else if path16.None? then Crashed(lookup, PathTooLong)
    else if s.open != Success then Crashed(lookup + [OpenFile(path16.value)], OpenFileFailed)
    else After(lookup + [OpenFile(path16.value)], ReadOpened(pol, s))
  }

  /** uk_efi_read_file (efi.c:431-504), with the two corrections recorded
      as findings: the path is converted with its bound counted in UTF-16
      units, and the buffer has room for the terminator. Which paths are
      refused is as written. Read delivers at most the FileSize asked for,
      and the length reported back is what it delivered. */
  function ReadBootFile(dev: nat, name: seq<byte>, pol: AllocPolicy, s: FileScript): (o: Outcome<FileData>)
    requires NulFree(name)
    requires |s.content| <= s.fileSize
    ensures o.Done? <==> ReadSucceeds(s) && |name| + 10 < UK_EFI_MAXPATHLEN / 2
    ensures o.Crashed? && o.site == PathTooLong <==>
              s.sfs == Success && s.volume == Success && |name| + 10 >= UK_EFI_MAXPATHLEN / 2
    ensures o.Crashed? ==> ReadSite(o.site)
    ensures o.Done? ==>
              && o.value == FileData(s.base, |s.content|, FilePages(s.fileSize), s.content + [0])
              && |o.value.bytes| <= o.value.pages * PAGE_SIZE
              && o.value.bytes[o.value.len] == 0
  {
    ReadPath(dev, BootPath16(name), pol, s)
  }

  /** A read that completes makes exactly the calls of the protocol, in
      order. */
  lemma ReadBootFileCalls(dev: nat, name: seq<byte>, pol: AllocPolicy, s: FileScript)
    requires NulFree(name)
    requires |s.content| <= s.fileSize
    ensures var o := ReadBootFile(dev, name, pol, s);
            o.Done? ==> o.calls == FileCalls(dev, Widen(BootPath(name)) + [0, 0], pol, s)
  {
  }

  /** A read that stops does so at a boot-services site. */
  lemma ReadBootFileCrashSites(dev: nat, name: seq<byte>, pol: AllocPolicy, s: FileScript)
    requires NulFree(name)
    requires |s.content| <= s.fileSize
    ensures var o := ReadBootFile(dev, name, pol, s);
            o.Crashed? ==> !KernelCrash(o.site)
  {
  }

  /** The path test as written (efi.c:457-460): ascii_to_utf16 is given
      UK_EFI_MAXPATHLEN - 1, an odd byte bound its even index never meets,
      and its byte count is compared with UK_EFI_MAXPATHLEN units. */
  predicate PathRejectedAsWritten(path: seq<byte>)
    requires NulFree(path)
  {
    AsciiToUtf16(path, UK_EFI_MAXPATHLEN - 1).ret > UK_EFI_MAXPATHLEN
  }

  /** As written, the test refuses every path of 2048 characters or more,
      half of what the 4096-unit buffer holds, and only after the whole path
      has been stored, past the buffer's end from 4096 characters on. */
  lemma PathLimitAsWritten(path: seq<byte>)
    requires NulFree(path)
    ensures PathRejectedAsWritten(path) <==> |path| >= 2048
    ensures |AsciiToUtf16(path, UK_EFI_MAXPATHLEN - 1).out| == 2 * |path| + 2
  {
  }

  /** Where the command line came from: load options win over the file. */
  datatype CmdlineSource = FromLoadOptions | FromFile | NoCmdline

  /** The command line the stub hands over: its buffer, the length stored
      in the boot record, the bytes of the buffer, and their origin. */
  datatype CommandLine = CommandLine(base: nat, len: nat, bytes: seq<byte>, source: CmdlineSource)

  /** The firmware's replies to the load-options branch. */
  datatype OptionsAlloc = OptionsAlloc(status: Status, base: nat)

  /** Load options are used when the pointer is set and the size is not
      zero (efi.c:523). */
  predicate UsesLoadOptions(img: LoadedImage)
  {
    img.hasLoadOptions && img.loadOptionsSize != 0
  }

  /** The memory the load-options conversion reads is there. */
  predicate OptionsReadable(img: LoadedImage)
  {
    UsesLoadOptions(img) ==> Utf16Readable(img.loadOptions, 0, img.loadOptionsSize / 2)
  }

  /** The command-line acquisition of uk_efi_setup_bootinfo_cmdl
      (efi.c:523-543). With load options, len = size / 2 + 1 bytes are
      allocated and the options converted with bound len - 1; __SZ_MAX is
      fatal, and the length kept counts the terminator. Otherwise, with a
      configured file name, the file is read and its length kept without
      the terminator. A NULL buffer means no command line. */
  function LoadCmdline(img: LoadedImage, fname: seq<byte>, pol: AllocPolicy,
                       alloc: OptionsAlloc, file: FileScript): (o: Outcome<Option<CommandLine>>)
    requires OptionsReadable(img)
    requires NulFree(fname) && |file.content| <= file.fileSize
    ensures UsesLoadOptions(img) ==>
              && (o.Crashed? ==> o.site == CmdlAlloc || o.site == CmdlOverflow)
              && o.calls == [AllocatePages(pol.allocType, pol.ceiling,
                                           DivRoundUp(img.loadOptionsSize / 2 + 1, PAGE_SIZE))]
    ensures o.Done? && o.value.Some? && o.value.value.source == FromLoadOptions ==> UsesLoadOptions(img)
    ensures o.Done? && o.value.Some? && o.value.value.source == FromFile ==>
              var cl := o.value.value;
              && !UsesLoadOptions(img) && |fname| > 0
              && |cl.bytes| == cl.len + 1 && cl.bytes == file.content + [0]
    ensures o.Done? && o.value.Some? ==> o.value.value.base != 0 && o.value.value.source != NoCmdline
    ensures UsesLoadOptions(img) ==> (o.Crashed? && o.site == CmdlAlloc <==> alloc.status != Success)
    ensures UsesLoadOptions(img) ==>
              (o.Done? <==> alloc.status == Success && !NonZeroUnits(img.loadOptions, 0, img.loadOptionsSize / 2 + 1))
    ensures UsesLoadOptions(img) && o.Done? ==>
              && (o.value.Some? <==> alloc.base != 0)
              && (o.value.Some? ==> o.value.value.base == alloc.base && o.value.value.source == FromLoadOptions)
    ensures !UsesLoadOptions(img) && |fname| > 0 ==>
              var r := ReadBootFile(img.deviceHandle, fname, pol, file);
              && o.calls == r.calls
              && (o.Done? <==> r.Done?)
              && (o.Crashed? ==> o.site == r.site)
              && (o.Done? ==>
                    && (o.value.Some? <==> file.base != 0)
                    && (o.value.Some? ==>
                          o.value.value == CommandLine(file.base, |file.content|, file.content + [0], FromFile)))
    ensures !UsesLoadOptions(img) && |fname| == 0 ==> o == Done(None, [])
  {
    if UsesLoadOptions(img) then
      var len := img.loadOptionsSize / 2 + 1;
      var calls := [AllocatePages(pol.allocType, pol.ceiling, DivRoundUp(len, PAGE_SIZE))];
      if alloc.status != Success then Crashed(calls, CmdlAlloc)
      else
        var conv := Utf16ToAscii(img.loadOptions, len - 1);
        if conv.ret == SZ_MAX then Crashed(calls, CmdlOverflow)
        else if alloc.base == 0 then Done(None, calls)
        else Done(Some(CommandLine(alloc.base, conv.ret, conv.out, FromLoadOptions)), calls)
    else if |fname| > 0 then
      match ReadBootFile(img.deviceHandle, fname, pol, file)
      case Crashed(c, f) => Crashed(c, f)
      case Done(fd, c) =>
        if fd.base == 0 then Done(None, c)
        else Done(Some(CommandLine(fd.base, fd.len, fd.bytes, FromFile)), c)
    else Done(None, [])
  }

  /** The command-line acquisition stops only at boot-services sites. */
  lemma LoadCmdlineCrashSites(img: LoadedImage, fname: seq<byte>, pol: AllocPolicy,
                              alloc: OptionsAlloc, file: FileScript)
    requires OptionsReadable(img)
    requires NulFree(fname) && |file.content| <= file.fileSize
    ensures var o := LoadCmdline(img, fname, pol, alloc, file);
            o.Crashed? ==> !KernelCrash(o.site)
  {
  }

  /** A command line taken from load options is their text up to the
      first zero unit, narrowed to bytes and terminated; it fits the
      load_options_size / 2 + 1 bytes allocated for it, and an overflow is
      reported exactly when no zero unit occurs among the first
      load_options_size / 2 + 1 units. */
  lemma LoadOptionsCmdline(img: LoadedImage, fname: seq<byte>, pol: AllocPolicy,
                           alloc: OptionsAlloc, file: FileScript)
    requires OptionsReadable(img) && UsesLoadOptions(img)
    requires NulFree(fname) && |file.content| <= file.fileSize
    ensures var o := LoadCmdline(img, fname, pol, alloc, file);
            o.Crashed? && o.site == CmdlOverflow <==>
              alloc.status == Success && NonZeroUnits(img.loadOptions, 0, img.loadOptionsSize / 2 + 1)
    ensures var o := LoadCmdline(img, fname, pol, alloc, file);
            o.Done? && o.value.Some? ==>
              var cl := o.value.value;
              && 1 <= cl.len <= img.loadOptionsSize / 2 + 1
              && 2 * (cl.len - 1) < |img.loadOptions|
              && |cl.bytes| == cl.len
              && cl.bytes == Narrow(img.loadOptions, 0, cl.len - 1) + [0]
              && NonZeroUnits(img.loadOptions, 0, cl.len - 1)
  {
  }

  /** The two sources disagree on what cmdline_len counts: from load
      options it includes the terminator, from a file it does not. In both
      cases the terminator sits at the end of the buffer's bytes. */
  lemma CmdlineLengthConventions(img: LoadedImage, fname: seq<byte>, pol: AllocPolicy,
                                 alloc: OptionsAlloc, file: FileScript)
    requires OptionsReadable(img)
    requires NulFree(fname) && |file.content| <= file.fileSize
    requires LoadCmdline(img, fname, pol, alloc, file).Done?
    requires LoadCmdline(img, fname, pol, alloc, file).value.Some?
    ensures var cl := LoadCmdline(img, fname, pol, alloc, file).value.value;
            && cl.bytes[|cl.bytes| - 1] == 0
            && (cl.source == FromLoadOptions ==> cl.len == |cl.bytes|)
            && (cl.source == FromFile ==> cl.len == |cl.bytes| - 1)
  {
  }
}

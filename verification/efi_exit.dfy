/** uk_efi_get_mmap_and_exit_bs (plat/kvm/efi.c:219-283): takes the final
    memory-map snapshot and leaves boot services, retrying once when
    ExitBootServices refuses the map key. Every firmware reply comes from a
    script; the calls made are logged in order. */
module EfiExitBs {
  import opened Common
  import opened EfiBase
  import opened EfiMemMap

  /** What one GetMemoryMap call reports: its status, the map size it wrote
      back, the descriptor stride and the map key. */
  datatype MapReply = MapReply(status: Status, mapSize: nat, descSize: nat, mapKey: nat)

  /** The firmware's replies to one pass of the sequence: the dummy query,
      the page allocation (and the base it chose), the real query (and the
      descriptors it wrote), and ExitBootServices. */
  datatype MapAttempt = MapAttempt(dummy: MapReply, alloc: Status, base: nat,
                                   query: MapReply, descs: seq<MemDesc>, exit: Status)

  /** The replies to a whole run: a first pass, the FreePages of the retry,
      and a second pass (unused when the first pass exits). */
  datatype ExitScript = ExitScript(first: MapAttempt, freeStatus: Status, second: MapAttempt)

  /** The memory map boot services were left with, and the key that
      ExitBootServices accepted. */
  datatype Snapshot = Snapshot(memMap: MemMap, mapKey: nat)

  /** How one pass ends when it does not crash: boot services exited, or the
      key was refused and the buffer (its base and the map size the real
      query wrote back) must be released. */
  datatype PassEnd = Exited(snap: Snapshot) | Refused(base: nat, mapSize: nat)

  /** The buffer size asked of the real query: the size the dummy query
      reported plus room for ten more descriptors. */
  function MapBufferSize(dummy: MapReply): (n: nat)
    ensures n >= dummy.mapSize
    ensures n - dummy.mapSize == UK_EFI_SURPLUS_MEM_DESC_COUNT * dummy.descSize
  {
    dummy.mapSize + dummy.descSize * UK_EFI_SURPLUS_MEM_DESC_COUNT
  }

  /** A pass whose three preparatory calls all succeed. */
  predicate Prepared(a: MapAttempt)
  {
    a.dummy.status == BufferTooSmall && a.alloc == Success && a.query.status == Success
  }

  /** The firmware calls of a pass that gets as far as ExitBootServices. */
  function PassCalls(a: MapAttempt, pol: AllocPolicy): seq<FwCall>
  {
    [GetMemoryMap(0),
     AllocatePages(pol.allocType, pol.ceiling, DivRoundUp(MapBufferSize(a.dummy), PAGE_SIZE)),
     GetMemoryMap(MapBufferSize(a.dummy)),
     ExitBootServices(a.query.mapKey)]
  }

  /** One pass of efi.c:250-281. The dummy query must report
      EFI_BUFFER_TOO_SMALL; the buffer is allocated in whole pages covering
      the enlarged size; the real query fills it; ExitBootServices is
      called with the key that query returned. */
  function RunPass(a: MapAttempt, pol: AllocPolicy): (o: Outcome<PassEnd>)
    ensures o.Done? <==> Prepared(a)
    ensures o.Crashed? ==>
              && o.calls < PassCalls(a, pol)
              && (o.site == DummyMapQuery <==> a.dummy.status != BufferTooSmall)
              && (o.site == MapAlloc <==> a.dummy.status == BufferTooSmall && a.alloc != Success)
              && (o.site == MapQuery <==> a.dummy.status == BufferTooSmall && a.alloc == Success)
    ensures o.Done? ==> o.calls == PassCalls(a, pol)
    ensures o.Done? ==> (o.value.Exited? <==> a.exit == Success)
    ensures o.Done? && o.value.Exited? ==>
              o.value.snap == Snapshot(MemMap(a.base, a.query.mapSize, a.query.descSize, a.descs), a.query.mapKey)
    ensures o.Done? && o.value.Refused? ==> o.value == Refused(a.base, a.query.mapSize)
  {
    var c := PassCalls(a, pol);
    if a.dummy.status != BufferTooSmall then Crashed(c[..1], DummyMapQuery)
    else if a.alloc != Success then Crashed(c[..2], MapAlloc)
    else if a.query.status != Success then Crashed(c[..3], MapQuery)
    else if a.exit == Success then
      Done(Exited(Snapshot(MemMap(a.base, a.query.mapSize, a.query.descSize, a.descs), a.query.mapKey)), c)
    else Done(Refused(a.base, a.query.mapSize), c)
  }

  /** The buffer handed to the real query always lies inside the pages
      allocated for it, and holds the reported map plus the surplus. */
  lemma BufferFitsAllocation(a: MapAttempt, pol: AllocPolicy)
    ensures var p := PassCalls(a, pol)[1].pages;
            var n := PassCalls(a, pol)[2].bufSize;
            && n <= p * PAGE_SIZE
            && n == a.dummy.mapSize + UK_EFI_SURPLUS_MEM_DESC_COUNT * a.dummy.descSize
            && (p == 0 || (p - 1) * PAGE_SIZE < n)
  {
  }

  /** The second pass (efi.c:229-231, 250-282), run once the first
      buffer is freed: a refusal is now fatal. */
  function SecondPass(a: MapAttempt, pol: AllocPolicy, free: seq<FwCall>): (o: Outcome<Snapshot>)
    requires ExitCalls(free) == 1
    ensures o.calls == free + RunPass(a, pol).calls && |RunPass(a, pol).calls| > 0
    ensures o.Done? ==> o.calls[|o.calls| - 1] == ExitBootServices(o.value.mapKey)
    ensures o.Done? ==> ExitCalls(o.calls) == 2
    ensures o.Crashed? ==> 1 <= ExitCalls(o.calls) <= 2
    ensures o.Done? ==>
              o.value == Snapshot(MemMap(a.base, a.query.mapSize, a.query.descSize, a.descs), a.query.mapKey)
    ensures o.Done? <==> Prepared(a) && a.exit == Success
    ensures o.Crashed? && o.site == SecondExitFailure <==> Prepared(a) && a.exit != Success
    ensures o.Crashed? ==> !KernelCrash(o.site)
  {
    var pass := RunPass(a, pol);
    var calls := free + pass.calls;
    PassExitCalls(a, pol);
    ExitCallsAppend(free, pass.calls);
    if pass.Crashed? then Crashed(calls, pass.site)
    else if pass.value.Exited? then Done(pass.value.snap, calls)
    else Crashed(calls, SecondExitFailure)
  }

  /** The retry (efi.c:228-239) after a first pass ended in Refused(base,
      mapSize) having made the calls c: the previous buffer is freed by
      DIV_ROUND_UP(mapSize, PAGE_SIZE) pages (a failure there is fatal)
      and the second pass runs. */
  function Retry(s: ExitScript, pol: AllocPolicy, c: seq<FwCall>, base: nat, mapSize: nat): (o: Outcome<Snapshot>)
    requires ExitCalls(c) == 1
    ensures |o.calls| > |c| && o.calls[..|c|] == c
    ensures o.calls[|c|] == FreePages(base, DivRoundUp(mapSize, PAGE_SIZE))
    ensures o.Done? ==> o.calls[|o.calls| - 1] == ExitBootServices(o.value.mapKey)
    ensures o.Done? ==> ExitCalls(o.calls) == 2
    ensures o.Crashed? ==> 1 <= ExitCalls(o.calls) <= 2
    ensures o.Done? ==>
              o.value == Snapshot(MemMap(s.second.base, s.second.query.mapSize, s.second.query.descSize, s.second.descs),
                                  s.second.query.mapKey)
    ensures o.Done? <==> s.freeStatus == Success && Prepared(s.second) && s.second.exit == Success
    ensures o.Crashed? && o.site == SecondExitFailure <==>
              s.freeStatus == Success && Prepared(s.second) && s.second.exit != Success
    ensures o.Crashed? ==> !KernelCrash(o.site)
  {
    var free := c + [FreePages(base, DivRoundUp(mapSize, PAGE_SIZE))];
    ExitCallsAppend(c, [FreePages(base, DivRoundUp(mapSize, PAGE_SIZE))]);
    assert ExitCalls([FreePages(base, DivRoundUp(mapSize, PAGE_SIZE))]) == 0;
    assert free[..|c|] == c;
    if s.freeStatus != Success then Crashed(free, FreePrevMap)
    else
      var o := SecondPass(s.second, pol, free);
      assert o.calls[..|c|] == c && o.calls[|c|] == free[|c|];
      o
  }

  /** The whole routine: a pass; on refusal, the retry. */
  function GetMmapAndExitBs(s: ExitScript, pol: AllocPolicy): (o: Outcome<Snapshot>)
    ensures o.Done? ==> |o.calls| > 0 && o.calls[|o.calls| - 1] == ExitBootServices(o.value.mapKey)
    ensures 1 <= ExitCalls(o.calls) <= 2 || (o.Crashed? && ExitCalls(o.calls) == 0)
    ensures o.Done? && ExitCalls(o.calls) == 1 ==>
              o.value == Snapshot(MemMap(s.first.base, s.first.query.mapSize, s.first.query.descSize, s.first.descs),
                                  s.first.query.mapKey)
    ensures o.Done? && ExitCalls(o.calls) == 2 ==>
              && o.value == Snapshot(MemMap(s.second.base, s.second.query.mapSize, s.second.query.descSize, s.second.descs),
                                     s.second.query.mapKey)
              && |o.calls| > 4 && o.calls[4] == FreePages(s.first.base, DivRoundUp(s.first.query.mapSize, PAGE_SIZE))
    ensures o.Done? <==>
              Prepared(s.first) && (s.first.exit == Success
                || (s.freeStatus == Success && Prepared(s.second) && s.second.exit == Success))
    ensures o.Crashed? && o.site == SecondExitFailure <==>
              && Prepared(s.first) && s.first.exit != Success && s.freeStatus == Success
              && Prepared(s.second) && s.second.exit != Success
    ensures o.Crashed? ==> !KernelCrash(o.site)
  {
    var first := RunPass(s.first, pol);
    PassExitCalls(s.first, pol);
    match first
    case Crashed(c, f) => Crashed(c, f)
    case Done(Exited(snap), c) => Done(snap, c)
    case Done(Refused(base, mapSize), c) => Retry(s, pol, c, base, mapSize)
  }

  /** The number of ExitBootServices calls in a log. */
  function ExitCalls(calls: seq<FwCall>): nat
    decreases |calls|
  {
    if calls == [] then 0
    else (if calls[0].ExitBootServices? then 1 else 0) + ExitCalls(calls[1..])
  }

  lemma {:induction false} ExitCallsAppend(a: seq<FwCall>, b: seq<FwCall>)
    ensures ExitCalls(a + b) == ExitCalls(a) + ExitCalls(b)
    decreases |a|
  {
    if a == [] {
      assert a + b == b;
    } else {
      assert (a + b)[1..] == a[1..] + b;
      ExitCallsAppend(a[1..], b);
    }
  }

  /** A pass calls ExitBootServices once if it gets that far, otherwise never. */
  lemma PassExitCalls(a: MapAttempt, pol: AllocPolicy)
    ensures ExitCalls(RunPass(a, pol).calls) == (if Prepared(a) then 1 else 0)
  {
    var c := PassCalls(a, pol);
    assert ExitCalls([c[3]]) == 1 by {
      assert [c[3]][1..] == [];
    }
    assert ExitCalls([c[2], c[3]]) == 1 by {
      assert [c[2], c[3]][1..] == [c[3]];
    }
    assert ExitCalls([c[1], c[2], c[3]]) == 1 by {
      assert [c[1], c[2], c[3]][1..] == [c[2], c[3]];
    }
    assert ExitCalls(c) == 1 by {
      assert c[1..] == [c[1], c[2], c[3]];
    }
    assert ExitCalls([c[2]]) == 0 by {
      assert [c[2]][1..] == [];
    }
    assert ExitCalls([c[1]]) == 0 by {
      assert [c[1]][1..] == [];
    }
    assert ExitCalls([c[1], c[2]]) == 0 by {
      assert [c[1], c[2]][1..] == [c[2]];
    }
    assert ExitCalls(c[..3]) == 0 by {
      assert c[..3][1..] == [c[1], c[2]];
    }
    assert ExitCalls(c[..2]) == 0 by {
      assert c[..2][1..] == [c[1]];
    }
    assert ExitCalls(c[..1]) == 0 by {
      assert c[..1][1..] == [];
    }
  }

  /** The retry frees DIV_ROUND_UP of the size the real query wrote back,
      not of the size the pages were allocated for: a map that the query
      reports one descriptor smaller than the dummy query did, with a
      48-byte stride, allocates two pages and frees one. */
  lemma RetryFreeMayLeak(s: ExitScript, pol: AllocPolicy)
    requires s.first.dummy.status == BufferTooSmall && s.first.dummy.mapSize == 4000 && s.first.dummy.descSize == 48
    requires s.first.alloc == Success && s.first.query.status == Success && s.first.query.mapSize == 3952
    requires s.first.exit != Success
    ensures var o := GetMmapAndExitBs(s, pol);
            && |o.calls| > 4
            && o.calls[1] == AllocatePages(pol.allocType, pol.ceiling, 2)
            && o.calls[4] == FreePages(s.first.base, 1)
  {
    assert MapBufferSize(s.first.dummy) == 4480;
    assert DivRoundUp(4480, PAGE_SIZE) == 2;
    assert DivRoundUp(3952, PAGE_SIZE) == 1;
    var first := RunPass(s.first, pol);
    assert first == Done(Refused(s.first.base, 3952), PassCalls(s.first, pol));
    PassExitCalls(s.first, pol);
    var o := Retry(s, pol, first.calls, s.first.base, 3952);
    assert GetMmapAndExitBs(s, pol) == o;
    assert |first.calls| == 4;
    assert o.calls[1] == o.calls[..4][1] == first.calls[1];
  }
}

/** The device-independent layer of lib/uknetdev/netdev.c: registration
    with sequential ids, lookup by id, the UNPROBED -> UNCONFIGURED ->
    CONFIGURED -> RUNNING lifecycle with its guards, the configure-once
    queue slots, and the extended-information lookup. Driver operations are
    oracles: an absent operation is None, a present one is the value it
    returns. */
module NetDev {
  import opened Common

  const U16_MAX: nat := U16_LIMIT - 1

  /** enum uk_netdev_state, in declaration order. */
  datatype State = Unprobed | Unconfigured | Configured | Running

  /** The enum's numeric value; info_get and einfo_get compare with it. */
  function Rank(s: State): (r: nat)
    ensures r <= 3
    ensures r == 0 <==> s == Unprobed
    ensures r == 3 <==> s == Running
  {
    match s
    case Unprobed => 0
    case Unconfigured => 1
    case Configured => 2
    case Running => 3
  }

  /** A queue slot (dev->_rx_queue[i], dev->_tx_queue[i]): an error
      pointer, NULL, or a queue. Only an error pointer counts as free. */
  datatype Queue = QueueErr(rc: Errno) | QueueNull | QueuePtr(handle: nat)

  /** The codes an error pointer can carry are negative. */
  type Errno = x: int | x < 0 witness -1

  /** The IPv4 overwrite strings of struct uk_netdev_einfo_overwrites; None
      is a NULL pointer. */
  datatype Ip4 = Ip4(cidr: Option<string>, gw: Option<string>, dns0: Option<string>,
                     dns1: Option<string>, hostname: Option<string>, domain: Option<string>)

  /** What the framework keeps per device (struct uk_netdev_data plus the
      device's einfo pointer and queue arrays). */
  datatype Device = Device(id: u16, drvName: string, state: State, einfo: Option<Ip4>,
                           rxq: seq<Queue>, txq: seq<Queue>)

  /** The registered devices in list order, and netdev_count. */
  datatype Registry = Registry(devs: seq<Device>, count: u16)

  /** The driver side of uk_netdev_drv_register: its name and the queue
      arrays it set up. */
  datatype Driver = Driver(name: string, rxq: seq<Queue>, txq: seq<Queue>)

  /** CONFIG_LIBUKNETDEV_EINFO_LIBPARAM: off, or on with its MAXCOUNT, the
      outcome of the overwrite allocation, and the six arguments uk_nextarg
      splits off this device's ip= parameter. */
  datatype EinfoConfig = EinfoOff | EinfoOn(maxCount: nat, allocOk: bool, args: Ip4)

  /** The result of _alloc_einfo: NULL, an error pointer, or overwrites. */
  datatype EinfoAlloc = NoEinfo | EinfoErr(rc: int) | EinfoOk(ow: Ip4)

  /** An empty argument counts as absent. */
  function NonEmpty(a: Option<string>): (r: Option<string>)
    ensures r.Some? <==> a.Some? && |a.value| > 0
    ensures r.Some? ==> r == a
  {
    if a.Some? && |a.value| == 0 then None else a
  }

  /** No overwrite is the empty string. */
  predicate Filtered(ow: Ip4)
  {
    && (ow.cidr.Some? ==> |ow.cidr.value| > 0) && (ow.gw.Some? ==> |ow.gw.value| > 0)
    && (ow.dns0.Some? ==> |ow.dns0.value| > 0) && (ow.dns1.Some? ==> |ow.dns1.value| > 0)
    && (ow.hostname.Some? ==> |ow.hostname.value| > 0) && (ow.domain.Some? ==> |ow.domain.value| > 0)
  }

  /** The empty-field filter of _alloc_einfo (netdev.c:125-137). */
  function FilterEmpty(args: Ip4): (ow: Ip4)
    ensures Filtered(ow)
  {
    Ip4(NonEmpty(args.cidr), NonEmpty(args.gw), NonEmpty(args.dns0),
        NonEmpty(args.dns1), NonEmpty(args.hostname), NonEmpty(args.domain))
  }

  /** The filter keeps every non-empty argument as it is and is idempotent. */
  lemma FilterEmptyKeeps(args: Ip4)
    ensures Filtered(args) ==> FilterEmpty(args) == args
    ensures FilterEmpty(FilterEmpty(args)) == FilterEmpty(args)
    ensures args.cidr.Some? && |args.cidr.value| > 0 ==> FilterEmpty(args).cidr == args.cidr
    ensures args.cidr.Some? && |args.cidr.value| == 0 ==> FilterEmpty(args).cidr.None?
  {
  }

  /** _alloc_einfo (netdev.c:95-159): no overwrites for an id beyond
      MAXCOUNT, -ENOMEM when the allocation fails, otherwise the filtered
      arguments. */
  function AllocEinfo(id: u16, maxCount: nat, allocOk: bool, args: Ip4): (r: EinfoAlloc)
    ensures r.NoEinfo? <==> id >= maxCount
    ensures r.EinfoErr? <==> id < maxCount && !allocOk
    ensures r.EinfoErr? ==> r.rc == -ENOMEM
    ensures r.EinfoOk? ==> r.ow == FilterEmpty(args) && Filtered(r.ow)
  {
    if id >= maxCount then NoEinfo
    else if !allocOk then EinfoErr(-ENOMEM)
    else EinfoOk(FilterEmpty(args))
  }

  /** _alloc_data (netdev.c:73-92): a fresh, unprobed record carrying the
      id it is given. */
  function NewDevice(id: u16, drv: Driver, einfo: Option<Ip4>): (d: Device)
    ensures d.id == id && d.state == Unprobed && d.drvName == drv.name
    ensures d.rxq == drv.rxq && d.txq == drv.txq && d.einfo == einfo
  {
    Device(id, drv.name, Unprobed, einfo, drv.rxq, drv.txq)
  }

  /** uk_netdev_drv_register (netdev.c:162-202). A failed data allocation
      returns -ENOMEM; an einfo error pointer returns its code after the
      data is freed; either way nothing is registered. Otherwise the device
      is appended with id netdev_count, which is returned, and the 16-bit
      counter is incremented. */
  function Register(reg: Registry, drv: Driver, dataOk: bool, cfg: EinfoConfig): (res: (Registry, int))
    ensures res.1 < 0 ==> res.0 == reg
    ensures res.1 < 0 <==> !dataOk || (cfg.EinfoOn? && reg.count < cfg.maxCount && !cfg.allocOk)
    ensures res.1 >= 0 ==>
              && res.1 == reg.count
              && res.0.count == (reg.count + 1) % U16_LIMIT
              && |res.0.devs| == |reg.devs| + 1
              && res.0.devs[..|reg.devs|] == reg.devs
              && res.0.devs[|reg.devs|].id == reg.count
              && res.0.devs[|reg.devs|].state == Unprobed
              && res.0.devs[|reg.devs|].drvName == drv.name
              && res.0.devs[|reg.devs|].einfo
                 == (if cfg.EinfoOn? && reg.count < cfg.maxCount then Some(FilterEmpty(cfg.args)) else None)
  {
    if !dataOk then (reg, -ENOMEM)
    else
      var einfo := if cfg.EinfoOff? then NoEinfo else AllocEinfo(reg.count, cfg.maxCount, cfg.allocOk, cfg.args);
      if einfo.EinfoErr? then (reg, einfo.rc)
      else
        var d := NewDevice(reg.count, drv, if einfo.EinfoOk? then Some(einfo.ow) else None);
        (Registry(reg.devs + [d], (reg.count + 1) % U16_LIMIT), reg.count)
  }

  /** uk_netdev_get (netdev.c:209-220): the first listed device whose id
      matches, as its list position. */
  function Get(devs: seq<Device>, id: nat): (r: Option<nat>)
    ensures r.Some? ==> r.value < |devs| && devs[r.value].id == id
    ensures r.Some? ==> forall j :: 0 <= j < r.value ==> devs[j].id != id
    ensures r.None? <==> forall j :: 0 <= j < |devs| ==> devs[j].id != id
    decreases |devs|
  {
    if devs == [] then None
    else if devs[0].id == id then Some(0)
    else
      match Get(devs[1..], id)
      case None => None
      case Some(k) => Some(k + 1)
  }

  /** Ids match list positions and netdev_count is the list length: what
      registrations from an empty list leave while fewer than 65536 have
      happened. */
  predicate Sequential(reg: Registry)
  {
    && reg.count == |reg.devs|
    && forall i :: 0 <= i < |reg.devs| ==> reg.devs[i].id == i
  }

  /** A registration keeps the ids sequential as long as the counter does
      not wrap. */
  lemma RegisterSequential(reg: Registry, drv: Driver, dataOk: bool, cfg: EinfoConfig)
    requires Sequential(reg) && reg.count < U16_MAX
    ensures Sequential(Register(reg, drv, dataOk, cfg).0)
  {
  }

  /** With sequential ids every id below netdev_count is found, at its own
      position, and no other id is. */
  lemma {:induction false} GetSequential(reg: Registry, id: nat)
    requires Sequential(reg)
    ensures id < reg.count ==> Get(reg.devs, id) == Some(id)
    ensures id >= reg.count ==> Get(reg.devs, id).None?
  {
    if id < reg.count {
      assert reg.devs[id].id == id;
      var r := Get(reg.devs, id);
      assert reg.devs[r.value].id == r.value;
    } else {
      assert forall j :: 0 <= j < |reg.devs| ==> reg.devs[j].id != id by {
        forall j | 0 <= j < |reg.devs|
          ensures reg.devs[j].id != id
        {
          assert reg.devs[j].id == j;
        }
      }
    }
  }

  /** netdev_count is a uint16_t: the registration after 65535 hands out
      that id and leaves the counter at 0, so the next device is given id 0
      again. */
  lemma CounterWraps(reg: Registry, drv: Driver, cfg: EinfoConfig)
    requires reg.count == U16_MAX
    requires cfg.EinfoOn? ==> cfg.allocOk || cfg.maxCount <= U16_MAX
    ensures var res := Register(reg, drv, true, cfg);
            res.1 == U16_MAX && res.0.count == 0
  {
  }

  /** uk_netdev_probe (netdev.c:246-262): an absent probe operation counts
      as success; a negative result leaves the state alone, anything else
      moves the device to UNCONFIGURED. */
  function Probe(d: Device, probeOp: Option<int>): (res: (Device, int))
    requires d.state == Unprobed
    ensures res.1 == (if probeOp.Some? then probeOp.value else 0)
    ensures res.0 == d.(state := if res.1 < 0 then Unprobed else Unconfigured)
  {
    var ret := if probeOp.Some? then probeOp.value else 0;
    if ret < 0 then (d, ret) else (d.(state := Unconfigured), ret)
  }

  /** The capabilities info_get reports; only the queue maxima matter to
      the framework. */
  datatype DevInfo = DevInfo(maxRxQueues: nat, maxTxQueues: nat)

  /** uk_netdev_info_get (netdev.c:264-284): the driver's answer with both
      queue maxima clamped to CONFIG_LIBUKNETDEV_MAXNBQUEUES. */
  function InfoGet(d: Device, drvInfo: DevInfo, maxQueues: nat): (info: DevInfo)
    requires Rank(d.state) >= Rank(Unconfigured)
    ensures info.maxRxQueues <= maxQueues && info.maxRxQueues <= drvInfo.maxRxQueues
    ensures info.maxRxQueues == maxQueues || info.maxRxQueues == drvInfo.maxRxQueues
    ensures info.maxTxQueues <= maxQueues && info.maxTxQueues <= drvInfo.maxTxQueues
    ensures info.maxTxQueues == maxQueues || info.maxTxQueues == drvInfo.maxTxQueues
  {
    DevInfo(Min(maxQueues, drvInfo.maxRxQueues), Min(maxQueues, drvInfo.maxTxQueues))
  }

  /** The queue counts uk_netdev_configure is asked for. */
  datatype Conf = Conf(nbRxQueues: nat, nbTxQueues: nat)

  /** uk_netdev_configure (netdev.c:384-424): -EINVAL outside UNCONFIGURED
      or for more queues than the clamped maxima; otherwise the driver's
      result, which moves the device to CONFIGURED unless negative. */
  function Configure(d: Device, conf: Conf, drvInfo: DevInfo, maxQueues: nat, drvRet: int): (res: (Device, int))
    ensures d.state != Unconfigured ==> res == (d, -EINVAL)
    ensures (&& d.state == Unconfigured
             && (conf.nbRxQueues > Min(maxQueues, drvInfo.maxRxQueues)
                 || conf.nbTxQueues > Min(maxQueues, drvInfo.maxTxQueues)))
            ==> res == (d, -EINVAL)
    ensures res.0.state == Configured && d.state != Configured ==>
              && conf.nbRxQueues <= maxQueues && conf.nbRxQueues <= drvInfo.maxRxQueues
              && conf.nbTxQueues <= maxQueues && conf.nbTxQueues <= drvInfo.maxTxQueues
              && res.1 == drvRet && drvRet >= 0
    ensures res.0 == d || (res.0 == d.(state := Configured) && d.state == Unconfigured)
    ensures (&& d.state == Unconfigured
             && conf.nbRxQueues <= Min(maxQueues, drvInfo.maxRxQueues)
             && conf.nbTxQueues <= Min(maxQueues, drvInfo.maxTxQueues))
            ==> res == (if drvRet >= 0 then d.(state := Configured) else d, drvRet)
  {
    if d.state != Unconfigured then (d, -EINVAL)
    else
      var info := InfoGet(d, drvInfo, maxQueues);
      if conf.nbRxQueues > info.maxRxQueues then (d, -EINVAL)
      else if conf.nbTxQueues > info.maxTxQueues then (d, -EINVAL)
      else if drvRet >= 0 then (d.(state := Configured), drvRet)
      else (d, drvRet)
  }

  /** A slot holding anything but an error pointer is taken; NULL too. */
  predicate Busy(q: Queue)
  {
    !q.QueueErr?
  }

  /** uk_netdev_rxq_configure (netdev.c:514-562): -EINVAL unless
      CONFIGURED, -EBUSY when the slot is taken; a failing event-handler
      setup returns -ENOMEM with the slot untouched; otherwise the slot
      takes the driver's result, and an error pointer there is returned as
      its code, leaving the slot free for another attempt. */
  function RxqConfigure(d: Device, q: nat, maxQueues: nat, handlerOk: bool, drvQueue: Queue): (res: (Device, int))
    requires q < maxQueues && q < |d.rxq|
    ensures res.1 == 0 ==> d.state == Configured && !Busy(d.rxq[q]) && res.0 == d.(rxq := d.rxq[q := drvQueue])
    ensures res.1 == 0 <==> d.state == Configured && !Busy(d.rxq[q]) && handlerOk && Busy(drvQueue)
    ensures d.state != Configured ==> res == (d, -EINVAL)
    ensures d.state == Configured && Busy(d.rxq[q]) ==> res == (d, -EBUSY)
    ensures d.state == Configured && !Busy(d.rxq[q]) && !handlerOk ==> res == (d, -ENOMEM)
    ensures d.state == Configured && !Busy(d.rxq[q]) && handlerOk && !Busy(drvQueue) ==>
              res == (d.(rxq := d.rxq[q := drvQueue]), drvQueue.rc)
    ensures res.0 == d || res.0 == d.(rxq := d.rxq[q := drvQueue])
    ensures res.0.state == d.state
  {
    if d.state != Configured then (d, -EINVAL)
    else if Busy(d.rxq[q]) then (d, -EBUSY)
    else if !handlerOk then (d, -ENOMEM)
    else
      var d1 := d.(rxq := d.rxq[q := drvQueue]);
      if drvQueue.QueueErr? then (d1, drvQueue.rc) else (d1, 0)
  }

  /** uk_netdev_txq_configure (netdev.c:564-590): the same guards without
      an event handler. */
  function TxqConfigure(d: Device, q: nat, maxQueues: nat, drvQueue: Queue): (res: (Device, int))
    requires q < maxQueues && q < |d.txq|
    ensures res.1 == 0 ==> d.state == Configured && !Busy(d.txq[q]) && res.0 == d.(txq := d.txq[q := drvQueue])
    ensures res.1 == 0 <==> d.state == Configured && !Busy(d.txq[q]) && Busy(drvQueue)
    ensures d.state != Configured ==> res == (d, -EINVAL)
    ensures d.state == Configured && Busy(d.txq[q]) ==> res == (d, -EBUSY)
    ensures d.state == Configured && !Busy(d.txq[q]) && !Busy(drvQueue) ==>
              res == (d.(txq := d.txq[q := drvQueue]), drvQueue.rc)
    ensures res.0 == d || res.0 == d.(txq := d.txq[q := drvQueue])
    ensures res.0.state == d.state
  {
    if d.state != Configured then (d, -EINVAL)
    else if Busy(d.txq[q]) then (d, -EBUSY)
    else
      var d1 := d.(txq := d.txq[q := drvQueue]);
      if drvQueue.QueueErr? then (d1, drvQueue.rc) else (d1, 0)
  }

  /** A queue is configured at most once: after a successful configure the
      same slot is refused with -EBUSY, whatever the driver would answer. */
  lemma QueueConfiguredOnce(d: Device, q: nat, maxQueues: nat, h1: bool, h2: bool, r1: Queue, r2: Queue)
    requires q < maxQueues && q < |d.rxq| && q < |d.txq|
    ensures var first := RxqConfigure(d, q, maxQueues, h1, r1);
            first.1 == 0 ==> RxqConfigure(first.0, q, maxQueues, h2, r2) == (first.0, -EBUSY)
    ensures var first := TxqConfigure(d, q, maxQueues, r1);
            first.1 == 0 ==> TxqConfigure(first.0, q, maxQueues, r2) == (first.0, -EBUSY)
  {
  }

  /** A driver failure leaves the slot free: a later attempt reaches the
      driver again. */
  lemma FailedQueueRetryable(d: Device, q: nat, maxQueues: nat, rc: Errno, r2: Queue)
    requires q < maxQueues && q < |d.rxq| && q < |d.txq|
    requires d.state == Configured && !Busy(d.rxq[q]) && !Busy(d.txq[q])
    ensures var first := RxqConfigure(d, q, maxQueues, true, QueueErr(rc));
            RxqConfigure(first.0, q, maxQueues, true, r2).1 == (if Busy(r2) then 0 else r2.rc)
    ensures var first := TxqConfigure(d, q, maxQueues, QueueErr(rc));
            TxqConfigure(first.0, q, maxQueues, r2).1 == (if Busy(r2) then 0 else r2.rc)
  {
  }

  /** uk_netdev_start (netdev.c:592-611): -EINVAL unless CONFIGURED; a
      non-negative driver result moves the device to RUNNING. */
  function Start(d: Device, drvRet: int): (res: (Device, int))
    ensures d.state != Configured ==> res == (d, -EINVAL)
    ensures d.state == Configured ==> res.1 == drvRet
    ensures res.0.state == Running <==> d.state == Running || (d.state == Configured && drvRet >= 0)
    ensures res.0 == d || res.0 == d.(state := Running)
  {
    if d.state != Configured then (d, -EINVAL)
    else if drvRet >= 0 then (d.(state := Running), drvRet)
    else (d, drvRet)
  }

  /** The settings guarded by "configured or running". */
  predicate Usable(d: Device)
  {
    d.state == Configured || d.state == Running
  }

  /** uk_netdev_hwaddr_set and uk_netdev_mtu_set (netdev.c:613-631,
      701-717): -ENOTSUP without the driver operation, its result otherwise. */
  function OptionalSet(d: Device, op: Option<int>): (rc: int)
    requires Usable(d)
    ensures op.None? ==> rc == -ENOTSUP
    ensures op.Some? ==> rc == op.value
  {
    if op.None? then -ENOTSUP else op.value
  }

  /** uk_netdev_hwaddr_get (netdev.c:633-649): NULL without the operation. */
  function HwaddrGet(d: Device, op: Option<Option<seq<byte>>>): (r: Option<seq<byte>>)
    requires Usable(d)
    ensures op.None? ==> r.None?
    ensures op.Some? ==> r == op.value
  {
    if op.None? then None else op.value
  }

  /** uk_netdev_promiscuous_set (netdev.c:667-683): -ENOTSUP without the
      operation; otherwise the driver is asked with the mode normalised to
      0 or 1. */
  function PromiscuousSet(d: Device, mode: nat, op: Option<nat -> int>): (rc: int)
    requires Usable(d)
    ensures op.None? ==> rc == -ENOTSUP
  {
    if op.None? then -ENOTSUP else op.value(if mode != 0 then 1 else 0)
  }

  /** The driver only ever sees 0 or 1: every non-zero mode behaves like 1,
      and zero like 0. */
  lemma PromiscuousNormalised(d: Device, mode: nat, op: Option<nat -> int>)
    requires Usable(d)
    ensures PromiscuousSet(d, mode, op) == PromiscuousSet(d, if mode == 0 then 0 else 1, op)
    ensures op.Some? ==> PromiscuousSet(d, mode, op) == op.value(if mode == 0 then 0 else 1)
  {
  }

  /** enum uk_netdev_einfo_type, IPv4 part. */
  datatype EinfoKind = Ipv4Addr | Ipv4Mask | Ipv4Cidr | Ipv4Gw | Ipv4Dns0 | Ipv4Dns1
                     | Ipv4Hostname | Ipv4Domain

  /** The overwrite that answers a kind, if any kind does. */
  function OverwriteFor(ow: Ip4, kind: EinfoKind): Option<string>
  {
    match kind
    case Ipv4Cidr => ow.cidr
    case Ipv4Gw => ow.gw
    case Ipv4Dns0 => ow.dns0
    case Ipv4Dns1 => ow.dns1
    case Ipv4Hostname => ow.hostname
    case Ipv4Domain => ow.domain
    case _ => None
  }

  /** uk_netdev_einfo_get (netdev.c:286-354) with the driver's einfo_get as
      an optional function. With overwrites, ADDR and MASK are hidden by a
      CIDR from either side and a present overwrite answers its own kind;
      then the driver answers, again hiding ADDR and MASK behind its CIDR;
      without a driver operation the answer is NULL. Stated kind by kind:
      ADDR and MASK are absent exactly when a CIDR exists on either side or
      nobody answers them; for the six overwritable kinds a present
      overwrite wins and otherwise the driver's answer stands. */
  function EinfoGet(d: Device, kind: EinfoKind, drv: Option<EinfoKind -> Option<string>>): (r: Option<string>)
    requires Rank(d.state) >= Rank(Unconfigured)
    ensures kind == Ipv4Addr || kind == Ipv4Mask ==>
              var cidr := (d.einfo.Some? && d.einfo.value.cidr.Some?) || (drv.Some? && drv.value(Ipv4Cidr).Some?);
              r == (if cidr || drv.None? then None else drv.value(kind))
    ensures kind != Ipv4Addr && kind != Ipv4Mask ==>
              r == if d.einfo.Some? && OverwriteFor(d.einfo.value, kind).Some? then OverwriteFor(d.einfo.value, kind)
                   else if drv.Some? then drv.value(kind) else None
  {
    var drvCidr := drv.Some? && drv.value(Ipv4Cidr).Some?;
    if d.einfo.Some? && (kind == Ipv4Addr || kind == Ipv4Mask) && (d.einfo.value.cidr.Some? || drvCidr) then None
    else if d.einfo.Some? && OverwriteFor(d.einfo.value, kind).Some? then OverwriteFor(d.einfo.value, kind)
    else if drv.None? then None
    else if (kind == Ipv4Addr || kind == Ipv4Mask) && drvCidr then None
    else drv.value(kind)
  }

  /** Overwrites registered through _alloc_einfo never answer with an empty
      string: an empty argument defers to the driver. */
  lemma EmptyOverwriteDefers(d: Device, kind: EinfoKind, drv: Option<EinfoKind -> Option<string>>, args: Ip4)
    requires Rank(d.state) >= Rank(Unconfigured)
    requires d.einfo == Some(FilterEmpty(args))
    requires kind != Ipv4Addr && kind != Ipv4Mask
    requires OverwriteFor(args, kind) == Some([])
    ensures EinfoGet(d, kind, drv) == (if drv.Some? then drv.value(kind) else None)
  {
  }

  /** One framework call on a device, with the driver's answers. */
  datatype Call =
    | ProbeCall(probeOp: Option<int>)
    | ConfigureCall(conf: Conf, drvInfo: DevInfo, drvRet: int)
    | RxqCall(q: nat, handlerOk: bool, rxQueue: Queue)
    | TxqCall(q: nat, txQueue: Queue)
    | StartCall(drvRet: int)
    | HwaddrSetCall(hwOp: Option<int>)
    | MtuSetCall(mtuOp: Option<int>)

  /** A call whose asserted preconditions (UK_ASSERT) hold. */
  predicate Allowed(d: Device, c: Call, maxQueues: nat)
  {
    match c
    case ProbeCall(_) => d.state == Unprobed
    case RxqCall(q, _, _) => q < maxQueues && q < |d.rxq|
    case TxqCall(q, _) => q < maxQueues && q < |d.txq|
    case HwaddrSetCall(_) => Usable(d)
    case MtuSetCall(_) => Usable(d)
    case _ => true
  }

  /** The device after a call (the setters change nothing the framework
      keeps). */
  function Apply(d: Device, c: Call, maxQueues: nat): (d2: Device)
    requires Allowed(d, c, maxQueues)
    ensures d2.id == d.id && d2.drvName == d.drvName && d2.einfo == d.einfo
  {
    match c
    case ProbeCall(p) => Probe(d, p).0
    case ConfigureCall(conf, info, r) => Configure(d, conf, info, maxQueues, r).0
    case RxqCall(q, h, rq) => RxqConfigure(d, q, maxQueues, h, rq).0
    case TxqCall(q, tq) => TxqConfigure(d, q, maxQueues, tq).0
    case StartCall(r) => Start(d, r).0
    case HwaddrSetCall(_) => d
    case MtuSetCall(_) => d
  }

  /** Every call either keeps the state or advances it by one step. */
  lemma ApplyStep(d: Device, c: Call, maxQueues: nat)
    requires Allowed(d, c, maxQueues)
    ensures var s := Apply(d, c, maxQueues).state;
            s == d.state || Rank(s) == Rank(d.state) + 1
  {
  }

  /** Replaying calls while their preconditions hold; stops at the first
      call that would trip an assertion. */
  function Run(d: Device, cs: seq<Call>, maxQueues: nat): Device
    decreases |cs|
  {
    if cs == [] || !Allowed(d, cs[0], maxQueues) then d
    else Run(Apply(d, cs[0], maxQueues), cs[1..], maxQueues)
  }

  /** The state never moves backwards along any sequence of calls, and a
      running device stays running: no call leaves RUNNING. */
  lemma {:induction false} RunMonotone(d: Device, cs: seq<Call>, maxQueues: nat)
    ensures Rank(Run(d, cs, maxQueues).state) >= Rank(d.state)
    ensures d.state == Running ==> Run(d, cs, maxQueues).state == Running
    ensures Run(d, cs, maxQueues).id == d.id
    decreases |cs|
  {
    if cs != [] && Allowed(d, cs[0], maxQueues) {
      ApplyStep(d, cs[0], maxQueues);
      RunMonotone(Apply(d, cs[0], maxQueues), cs[1..], maxQueues);
    }
  }
}

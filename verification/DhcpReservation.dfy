/**
 Join order does not decide addresses: over whole runs of messages, saves, power
 losses and loads, a client keeps the address reserved for it.
 */
module DhcpReservation {
  import opened Bytes
  import opened DhcpTable
  import opened DhcpGrant
  import opened DhcpFlash
  import opened DhcpEvents

  /** `addr` is leased to `mac`, undisputed and not declined. */
  ghost predicate Reserved(st: Server, mac: Mac, addr: u32) {
    var i := Find(st.leases, ByMac(mac));
    && addr != 0 && addr !in st.declined
    && i < |st.leases| && st.leases[i].ip == addr && !st.leases[i].quarantined
    && forall k | 0 <= k < |st.leases| && k != i && st.leases[k].inUse :: st.leases[k].observedIp != addr
  }

  ghost predicate InFlash(flash: Option<seq<byte>>, mac: Mac, addr: u32) {
    exists n | 0 <= n < |FlashRecords(flash)| ::
      FlashRecords(flash)[n].mac == mac && FlashRecords(flash)[n].ip == addr
  }

  ghost predicate Safe(sys: System, mac: Mac, addr: u32) {
    SystemOk(sys) && Reserved(sys.server, mac, addr) && InFlash(sys.flash, mac, addr)
  }

  /** The client has been heard from this boot, so nothing reclaims its entry. */
  predicate Heard(st: Server, mac: Mac) {
    var i := Find(st.leases, ByMac(mac));
    i < |st.leases| && SeenThisBoot(st.leases[i], st.bootSeq)
  }

  predicate HasSlot(st: Server, mac: Mac) {
    Find(st.leases, ByMac(mac)) < |st.leases| || Find(st.leases, Free) < |st.leases|
  }

  /** What a message may do without touching `addr`. `mac` itself must ask on the
      port whose range holds its reservation, and not walk away from it. Another
      client whose own reservation stands may ask for anything, this address too.
      Anybody else must not ask for it; and until `mac` has been heard from this
      boot, neither the range nor the table may have run out for them. */
  predicate FairMessage(cfg: Config, st: Server, now: int, m: Message, mac: Mac, addr: u32)
    requires cfg.Ok()
  {
    match m
    case Discover(c, requested, onWire) => FairAsk(cfg, st, now, c, requested, onWire, mac, addr)
    case Request(c, requested, serverId, onWire) =>
      if serverId != 0 && serverId != cfg.serverIp then c != mac
      else FairAsk(cfg, st, now, c, requested, onWire, mac, addr)
    case Decline(c, requested) => c != mac && (Known(st, c) || requested != addr)
    case Release(_) => true
    case Inform(_, _) => true
    case Other => true
  }

  predicate Known(st: Server, c: Mac) {
    Find(st.leases, ByMac(c)) < |st.leases|
  }

  predicate FairAsk(cfg: Config, st: Server, now: int, c: Mac, requested: u32, onWire: bool, mac: Mac, addr: u32)
    requires cfg.Ok()
  {
    if c == mac then cfg.Served(onWire).Has(addr)
    else
      || KeepsOwn(st, Find(st.leases, ByMac(c)), cfg.Served(onWire), now)
      || (requested != addr
          && (Heard(st, mac) || (Direct(cfg, st, now, c, requested, onWire) && HasSlot(st, c))))
  }

  ghost predicate Fair(cfg: Config, sys: System, now: int, ev: Event, mac: Mac, addr: u32)
    requires cfg.Ok()
  {
    match ev
    case Receive(m, _) => FairMessage(cfg, sys.server, now, m, mac, addr)
    case Observe(c, ip) =>
      c == mac || (ip != addr && (Heard(sys.server, mac) || HasSlot(sys.server, c)))
    case Quarantine(macs) => mac !in macs
    case Save(_) => true
    case PowerCycle => FreshInFlash(sys.flash, mac)
  }

  /** The stamp in flash is within five generations of the next boot. */
  ghost predicate FreshInFlash(flash: Option<seq<byte>>, mac: Mac) {
    flash.Some? && Parse(flash.value).Some? ==>
      var img := Parse(flash.value).value;
      forall n | 0 <= n < |img.records| && img.records[n].mac == mac ::
        Keeps(img.version, img.records[n], NextGeneration(img.bootSeq))
  }

  // ---- one step ----

  /** With the reservation standing, its owner is granted it and nothing else. */
  lemma OwnerKeepsAddress(cfg: Config, st: Server, now: int, mac: Mac, requested: u32, onWire: bool, addr: u32)
    requires cfg.Ok() && Distinct(st.leases) && Reserved(st, mac, addr)
    requires cfg.Served(onWire).Has(addr)
    ensures Select(cfg, st, now, mac, requested, onWire) == Grant(addr, st)
  {
    var i := Find(st.leases, ByMac(mac));
    assert KeepsOwn(st, i, cfg.Served(onWire), now);
  }

  /** Whoever else is served neither takes the address nor costs its owner the entry. */
  lemma OthersLeaveAddress(cfg: Config, st: Server, now: int, c: Mac, requested: u32, onWire: bool, mac: Mac, addr: u32)
    requires cfg.Ok() && Distinct(st.leases) && Reserved(st, mac, addr)
    requires c != mac && FairAsk(cfg, st, now, c, requested, onWire, mac, addr)
    ensures var g := Select(cfg, st, now, c, requested, onWire);
            && g.ip != addr && Distinct(g.st.leases) && Reserved(g.st, mac, addr)
            && (g.ip != 0 ==> Heard(g.st, mac) || HasSlot(g.st, c))
    decreases onWire
  {
    var i := Find(st.leases, ByMac(mac));
    SelectKeepsDistinct(cfg, st, now, c, requested, onWire);
    if KeepsOwn(st, Find(st.leases, ByMac(c)), cfg.Served(onWire), now) {
      assert st.leases[Find(st.leases, ByMac(c))].ip != addr;
    } else if Direct(cfg, st, now, c, requested, onWire) {
      DirectIsNotReserved(cfg, st, now, c, requested, onWire, mac, addr);
    } else if HasVictim(cfg, st, now, onWire) {
      var v := PickVictim(st, AddressIn(cfg.Served(onWire)), now);
      VictimOrder(st, AddressIn(cfg.Served(onWire)), now);
      ReclaimedGrant(cfg, st, now, c, requested, onWire);
      assert v != i;
      DropOther(st.leases, v, mac);
    } else if onWire {
      OthersLeaveAddress(cfg, st, now, c, requested, false, mac, addr);
    }
  }

  lemma DirectIsNotReserved(cfg: Config, st: Server, now: int, c: Mac, requested: u32, onWire: bool, mac: Mac, addr: u32)
    requires cfg.Ok() && Distinct(st.leases) && Reserved(st, mac, addr)
    requires c != mac && requested != addr && Direct(cfg, st, now, c, requested, onWire)
    ensures var g := Select(cfg, st, now, c, requested, onWire); g.st == st && g.ip != addr
  {
    var i := Find(st.leases, ByMac(mac));
    assert ByAnyIp(addr).Matches(st.leases[i]);
  }

  /** Clearing somebody else's slot does not move a client's entry. */
  lemma DropOther(ls: seq<Lease>, v: nat, mac: Mac)
    requires v < |ls| && v != Find(ls, ByMac(mac)) && Distinct(ls)
    ensures Find(ls[v := ls[v].(inUse := false)], ByMac(mac)) == Find(ls, ByMac(mac))
  {
    FindIs(ls[v := ls[v].(inUse := false)], ByMac(mac), Find(ls, ByMac(mac)));
  }

  /** Slot `i` keeps client and reservation; no other slot becomes the client's
      or is seen on its address. */
  lemma StillReserved(a: Server, b: Server, mac: Mac, addr: u32)
    requires Reserved(a, mac, addr) && Distinct(b.leases) && |a.leases| == |b.leases|
    requires addr !in b.declined
    requires var i := Find(a.leases, ByMac(mac));
             && b.leases[i].inUse && b.leases[i].mac == mac && b.leases[i].ip == addr
             && !b.leases[i].quarantined
             && forall k | 0 <= k < |b.leases| && k != i && b.leases[k].inUse ::
                  b.leases[k].observedIp != addr
    ensures Reserved(b, mac, addr)
  {
    var i := Find(a.leases, ByMac(mac));
    forall k | 0 <= k < i
      ensures !ByMac(mac).Matches(b.leases[k])
    {
    }
    FindIs(b.leases, ByMac(mac), i);
  }

  lemma EntryForLeavesOther(st: Server, now: int, c: Mac, mac: Mac, addr: u32)
    requires Distinct(st.leases) && Reserved(st, mac, addr) && c != mac
    requires Heard(st, mac) || HasSlot(st, c)
    ensures var s := EntryFor(st, now, c);
            s.index < |st.leases| ==>
              && s.index != Find(st.leases, ByMac(mac))
              && s.st.leases[s.index].observedIp != addr
  {
    var s := EntryFor(st, now, c);
    if Find(st.leases, ByMac(c)) == |st.leases| && Find(st.leases, Free) == |st.leases| {
      VictimOrder(st, AnySlot, now);
    }
  }

  lemma CommitLeavesReserved(st: Server, now: int, c: Mac, ip: u32, holdS: nat, persist: bool, mac: Mac, addr: u32)
    requires Distinct(st.leases) && Reserved(st, mac, addr) && ip != 0
    requires if c == mac then ip == addr else ip != addr && (Heard(st, mac) || HasSlot(st, c))
    ensures Reserved(Commit(st, now, c, ip, holdS, persist), mac, addr)
  {
    var r := Commit(st, now, c, ip, holdS, persist);
    EntryForKeepsDistinct(st, now, c);
    CommitEffect(st, now, c, ip, holdS, persist);
    CommitKeepsDistinct(st, now, c, ip, holdS, persist);
    if c != mac {
      EntryForLeavesOther(st, now, c, mac, addr);
    }
    StillReserved(st, r, mac, addr);
  }

  lemma AskLeavesReserved(cfg: Config, st: Server, now: int, c: Mac, requested: u32, onWire: bool,
                          holdS: nat, persist: bool, mac: Mac, addr: u32)
    requires cfg.Ok() && Distinct(st.leases) && Reserved(st, mac, addr)
    requires FairAsk(cfg, st, now, c, requested, onWire, mac, addr)
    ensures var g := Select(cfg, st, now, c, requested, onWire);
            && Reserved(g.st, mac, addr)
            && (g.ip != 0 ==> Reserved(Commit(g.st, now, c, g.ip, holdS, persist), mac, addr))
            && (c == mac ==> g.ip == addr)
  {
    var g := Select(cfg, st, now, c, requested, onWire);
    if c == mac {
      OwnerKeepsAddress(cfg, st, now, mac, requested, onWire, addr);
    } else {
      OthersLeaveAddress(cfg, st, now, c, requested, onWire, mac, addr);
    }
    if g.ip != 0 {
      CommitLeavesReserved(g.st, now, c, g.ip, holdS, persist, mac, addr);
    }
  }

  lemma DropLeavesReserved(st: Server, b: Server, v: nat, mac: Mac, addr: u32)
    requires Distinct(st.leases) && Reserved(st, mac, addr)
    requires v < |st.leases| && v != Find(st.leases, ByMac(mac))
    requires b.leases == st.leases[v := st.leases[v].(inUse := false)] && addr !in b.declined
    ensures Reserved(b, mac, addr)
  {
    DropOther(st.leases, v, mac);
  }

  lemma ReleaseLeavesReserved(st: Server, c: Mac, mac: Mac, addr: u32)
    requires Distinct(st.leases) && Reserved(st, mac, addr)
    ensures Reserved(ReleaseStep(st, c), mac, addr)
  {
    ReleaseKeeps(st, c);
    StillReserved(st, ReleaseStep(st, c), mac, addr);
  }

  lemma ElsewhereLeavesReserved(st: Server, c: Mac, mac: Mac, addr: u32)
    requires Distinct(st.leases) && Reserved(st, mac, addr) && c != mac
    ensures Reserved(ElsewhereStep(st, c), mac, addr)
  {
    if ElsewhereStep(st, c) != st {
      DropLeavesReserved(st, ElsewhereStep(st, c), Find(st.leases, ByMac(c)), mac, addr);
    }
  }

  lemma DeclineLeavesReserved(st: Server, now: int, c: Mac, requested: u32, mac: Mac, addr: u32)
    requires Distinct(st.leases) && Reserved(st, mac, addr) && c != mac && (Known(st, c) || requested != addr)
    ensures Reserved(DeclineStep(st, now, c, requested), mac, addr)
  {
    if Find(st.leases, ByMac(c)) < |st.leases| {
      DropLeavesReserved(st, DeclineStep(st, now, c, requested), Find(st.leases, ByMac(c)), mac, addr);
    }
  }

  lemma MessageLeavesReserved(cfg: Config, st: Server, now: int, leaseS: nat, m: Message, mac: Mac, addr: u32)
    requires cfg.Ok() && Distinct(st.leases) && Reserved(st, mac, addr)
    requires FairMessage(cfg, st, now, m, mac, addr)
    ensures Reserved(Handle(cfg, st, now, leaseS, m).st, mac, addr)
  {
    match m
    case Discover(c, requested, onWire) =>
      AskLeavesReserved(cfg, st, now, c, requested, onWire, OFFER_HOLD_S, false, mac, addr);
    case Request(c, requested, serverId, onWire) =>
      if serverId != 0 && serverId != cfg.serverIp {
        ElsewhereLeavesReserved(st, c, mac, addr);
      } else {
        AskLeavesReserved(cfg, st, now, c, requested, onWire, leaseS, true, mac, addr);
      }
    case Decline(c, requested) => DeclineLeavesReserved(st, now, c, requested, mac, addr);
    case Release(c) => ReleaseLeavesReserved(st, c, mac, addr);
    case _ =>
  }

  lemma ObserveLeavesReserved(cfg: Config, st: Server, now: int, c: Mac, ip: u32, mac: Mac, addr: u32)
    requires cfg.Ok() && Distinct(st.leases) && Reserved(st, mac, addr)
    requires c == mac || (ip != addr && (Heard(st, mac) || HasSlot(st, c)))
    ensures Reserved(ObserveStep(cfg, st, now, c, ip), mac, addr)
  {
    EntryForKeepsDistinct(st, now, c);
    ObserveKeeps(cfg, st, now, c, ip);
    if c != mac {
      EntryForLeavesOther(st, now, c, mac, addr);
    }
    StillReserved(st, ObserveStep(cfg, st, now, c, ip), mac, addr);
  }

  lemma SaveLeavesSafe(st: Server, mac: Mac, addr: u32)
    requires |st.leases| == MAX_LEASES && Distinct(st.leases) && Reserved(st, mac, addr)
    ensures Reserved(Saved(st), mac, addr)
    ensures InFlash(Some(TableBlob(st)), mac, addr)
  {
    var i := Find(st.leases, ByMac(mac));
    SaveKeeps(st);
    StillReserved(st, Saved(st), mac, addr);
    RecordsSound(st.leases, MAX_LEASES);
    assert RecordOf(st.leases[i]) in Records(st.leases, MAX_LEASES);
  }

  lemma ImageRestores(img: Image, n: nat, now: int)
    requires |img.records| <= MAX_LEASES && DistinctRecords(img.records)
    requires n < |img.records| && img.records[n].ip != 0
    requires Keeps(img.version, img.records[n], NextGeneration(img.bootSeq))
    ensures Reserved(BootImage(img, now), img.records[n].mac, img.records[n].ip)
  {
    var bootSeq := NextGeneration(img.bootSeq);
    var read := Restored(img, bootSeq, |img.records|);
    var ls := Padded(DropDisputed(read));
    RestoredSound(img, bootSeq, |img.records|);
    assert LeaseOf(img.records[n]) in read;
    var k :| 0 <= k < |read| && read[k] == LeaseOf(img.records[n]);
    assert ls[k] == Settle(read, k);
    RestoredDistinct(img, bootSeq, |img.records|);
    FindIs(ls, ByMac(img.records[n].mac), k);
    DroppedIsSettled(read);
  }

  /** A load brings the reservation back, whatever else it drops. */
  lemma BootRestores(flash: Option<seq<byte>>, now: int, mac: Mac, addr: u32)
    requires InFlash(flash, mac, addr) && FreshInFlash(flash, mac) && addr != 0
    requires DistinctRecords(FlashRecords(flash))
    ensures Reserved(Boot(flash, now), mac, addr)
  {
    var img := Parse(flash.value).value;
    var n :| 0 <= n < |img.records| && img.records[n].mac == mac && img.records[n].ip == addr;
    ImageRestores(img, n, now);
  }

  lemma StepKeepsSafe(cfg: Config, sys: System, now: int, ev: Event, mac: Mac, addr: u32)
    requires cfg.Ok() && Safe(sys, mac, addr) && Fair(cfg, sys, now, ev, mac, addr)
    ensures Safe(Step(cfg, sys, now, ev), mac, addr)
  {
    StepKeepsOk(cfg, sys, now, ev);
    match ev
    case Receive(m, leaseS) => MessageLeavesReserved(cfg, sys.server, now, leaseS, m, mac, addr);
    case Observe(c, ip) => ObserveLeavesReserved(cfg, sys.server, now, c, ip, mac, addr);
    case Quarantine(macs) =>
      StillReserved(sys.server, QuarantineStep(sys.server, now, macs), mac, addr);
    case Save(lands) => SaveLeavesSafe(sys.server, mac, addr);
    case PowerCycle => BootRestores(sys.flash, now, mac, addr);
  }

  // ---- whole runs ----

  ghost predicate FairRun(cfg: Config, sys: System, run: seq<Timed>, mac: Mac, addr: u32)
    requires cfg.Ok() && |sys.server.leases| == MAX_LEASES
    decreases |run|
  {
    run != [] ==>
      && Fair(cfg, sys, run[0].now, run[0].ev, mac, addr)
      && FairRun(cfg, Step(cfg, sys, run[0].now, run[0].ev), run[1..], mac, addr)
  }

  /** How this server answers `mac` when `addr` is its reservation. */
  predicate AnswersWith(cfg: Config, st: Server, now: int, leaseS: nat, m: Message, mac: Mac, addr: u32)
    requires cfg.Ok()
  {
    var reply := Handle(cfg, st, now, leaseS, m).reply;
    match m
    case Discover(c, _, _) => c == mac ==> reply == Offer(addr, leaseS)
    case Request(c, requested, serverId, _) =>
      c == mac && (serverId == 0 || serverId == cfg.serverIp) ==>
        reply == if requested == 0 || requested == addr then Ack(addr, leaseS) else Nak
    case _ => true
  }

  /** Every answer to `mac` along the run is its own address or a refusal of another. */
  ghost predicate OnlyOwnAddress(cfg: Config, sys: System, run: seq<Timed>, mac: Mac, addr: u32)
    requires cfg.Ok() && |sys.server.leases| == MAX_LEASES
    decreases |run|
  {
    run != [] ==>
      && (run[0].ev.Receive? ==>
            AnswersWith(cfg, sys.server, run[0].now, run[0].ev.leaseS, run[0].ev.msg, mac, addr))
      && OnlyOwnAddress(cfg, Step(cfg, sys, run[0].now, run[0].ev), run[1..], mac, addr)
  }

  lemma OwnerIsAnswered(cfg: Config, st: Server, now: int, leaseS: nat, m: Message, mac: Mac, addr: u32)
    requires cfg.Ok() && Distinct(st.leases) && Reserved(st, mac, addr)
    requires FairMessage(cfg, st, now, m, mac, addr)
    ensures AnswersWith(cfg, st, now, leaseS, m, mac, addr)
  {
    if (m.Discover? || m.Request?) && m.mac == mac && cfg.Served(m.onWire).Has(addr) {
      OwnerKeepsAddress(cfg, st, now, mac, m.requested, m.onWire, addr);
    }
  }

  /** Reservation stability: along any fair run, through any number of saves and
      power cycles, a client with a standing reservation is only ever offered or
      acknowledged that address. */
  lemma {:induction false} ReservationStability(cfg: Config, sys: System, run: seq<Timed>, mac: Mac, addr: u32)
    requires cfg.Ok() && Safe(sys, mac, addr) && FairRun(cfg, sys, run, mac, addr)
    ensures OnlyOwnAddress(cfg, sys, run, mac, addr)
    decreases |run|
  {
    if run != [] {
      if run[0].ev.Receive? {
        OwnerIsAnswered(cfg, sys.server, run[0].now, run[0].ev.leaseS, run[0].ev.msg, mac, addr);
      }
      StepKeepsSafe(cfg, sys, run[0].now, run[0].ev, mac, addr);
      ReservationStability(cfg, Step(cfg, sys, run[0].now, run[0].ev), run[1..], mac, addr);
    }
  }

  /** Reboot stability: whatever table was saved, after the power comes back each
      of its leases not older than five generations is answered with its own
      address, in whatever order the clients come back. */
  lemma RebootStability(cfg: Config, st: Server, i: nat, now: int, run: seq<Timed>)
    requires cfg.Ok() && |st.leases| == MAX_LEASES && Distinct(st.leases) && i < MAX_LEASES
    requires st.leases[i].inUse && st.leases[i].ip != 0
    requires Age(RecordOf(st.leases[i]), NextGeneration(st.bootSeq)) <= FORGET_AFTER_BOOTS
    requires var flash := Some(TableBlob(st));
             FairRun(cfg, System(Boot(flash, now), flash), run, st.leases[i].mac, st.leases[i].ip)
    ensures var flash := Some(TableBlob(st));
            OnlyOwnAddress(cfg, System(Boot(flash, now), flash), run, st.leases[i].mac, st.leases[i].ip)
  {
    var flash := Some(TableBlob(st));
    var sys := System(Boot(flash, now), flash);
    var mac, addr := st.leases[i].mac, st.leases[i].ip;
    SavedIsSafe(st, i, now);
    ReservationStability(cfg, sys, run, mac, addr);
  }

  lemma ImageInFlash(blob: seq<byte>, img: Image, n: nat)
    requires Parse(blob) == Some(img) && DistinctRecords(img.records) && n < |img.records|
    requires Keeps(img.version, img.records[n], NextGeneration(img.bootSeq))
    ensures InFlash(Some(blob), img.records[n].mac, img.records[n].ip)
    ensures FreshInFlash(Some(blob), img.records[n].mac)
  {
    var flash := Some(blob);
    assert FlashRecords(flash) == img.records;
    assert FlashRecords(flash)[n].ip == img.records[n].ip;
    forall k | 0 <= k < |img.records| && img.records[k].mac == img.records[n].mac
      ensures k == n
    {
    }
  }

  /** The record of slot `i` is the only one of its client, and not too old. */
  lemma SavedInFlash(st: Server, i: nat)
    requires |st.leases| == MAX_LEASES && Distinct(st.leases) && i < MAX_LEASES
    requires st.leases[i].inUse && st.leases[i].ip != 0
    requires Age(RecordOf(st.leases[i]), NextGeneration(st.bootSeq)) <= FORGET_AFTER_BOOTS
    ensures InFlash(Some(TableBlob(st)), st.leases[i].mac, st.leases[i].ip)
    ensures FreshInFlash(Some(TableBlob(st)), st.leases[i].mac)
  {
    var rs := Records(st.leases, MAX_LEASES);
    var r := RecordOf(st.leases[i]);
    assert r in rs by {
      RecordsSound(st.leases, MAX_LEASES);
    }
    var n :| 0 <= n < |rs| && rs[n] == r;
    RecordsDistinct(st.leases, MAX_LEASES);
    BlobRoundTrip(rs, st.bootSeq);
    ImageInFlash(TableBlob(st), Image(STORE_VERSION, st.bootSeq, rs), n);
  }

  lemma SavedIsSafe(st: Server, i: nat, now: int)
    requires |st.leases| == MAX_LEASES && Distinct(st.leases) && i < MAX_LEASES
    requires st.leases[i].inUse && st.leases[i].ip != 0
    requires Age(RecordOf(st.leases[i]), NextGeneration(st.bootSeq)) <= FORGET_AFTER_BOOTS
    ensures var flash := Some(TableBlob(st));
            Safe(System(Boot(flash, now), flash), st.leases[i].mac, st.leases[i].ip)
  {
    var flash := Some(TableBlob(st));
    SavedInFlash(st, i);
    SaveKeeps(st);
    BootRestores(flash, now, st.leases[i].mac, st.leases[i].ip);
    BootDistinct(flash, now);
    BootBacked(flash, now);
  }
}

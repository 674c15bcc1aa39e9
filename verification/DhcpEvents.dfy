/** Message handling and the other events that reach the lease table. */
module DhcpEvents {
  import opened Bytes
  import opened DhcpTable
  import opened DhcpGrant
  import opened DhcpFlash

  /** A client message after parsing. `serverId` 0 means the option was absent. */
  datatype Message =
    | Discover(mac: Mac, requested: u32, onWire: bool)
    | Request(mac: Mac, requested: u32, serverId: u32, onWire: bool)
    | Decline(mac: Mac, requested: u32)
    | Release(mac: Mac)
    | Inform(mac: Mac, ciaddr: u32)
    | Other

  datatype Reply = Silent | Offer(ip: u32, leaseS: nat) | Ack(ip: u32, leaseS: nat) | Nak

  datatype Handled = Handled(reply: Reply, st: Server)

  function DiscoverStep(cfg: Config, st: Server, now: int, mac: Mac, requested: u32, onWire: bool): Grant
    requires cfg.Ok()
  {
    var g := Select(cfg, st, now, mac, requested, onWire);
    if g.ip == 0 then g else Grant(g.ip, Commit(g.st, now, mac, g.ip, OFFER_HOLD_S, false))
  }

  /** The address acknowledged, or 0 for a refusal. */
  function RequestStep(cfg: Config, st: Server, now: int, mac: Mac, requested: u32, onWire: bool, leaseS: nat): Grant
    requires cfg.Ok()
  {
    var g := Select(cfg, st, now, mac, requested, onWire);
    if g.ip != 0 && (requested == 0 || requested == g.ip) then
      Grant(g.ip, Commit(g.st, now, mac, g.ip, leaseS, true))
    else Grant(0, g.st)
  }

  /** The client chose another server: what was held for it is dropped. */
  function ElsewhereStep(st: Server, mac: Mac): Server {
    var i := Find(st.leases, ByMac(mac));
    if i < |st.leases| && st.leases[i].expiresUs != 0 then st.Put(i, st.leases[i].(inUse := false))
    else st
  }

  function DeclineStep(st: Server, now: int, mac: Mac, requested: u32): Server {
    var i := Find(st.leases, ByMac(mac));
    var bad := if i < |st.leases| then st.leases[i].ip else requested;
    var st1 :=
      if bad != 0 && bad !in st.declined && |st.declined| < MAX_DECLINED
      then st.(declined := st.declined + [bad]) else st;
    if i == |st.leases| then st1
    else
      var st2 := st1.Put(i, st.leases[i].(inUse := false));
      if st.leases[i].savedIp != 0 then st2.MarkDirty(now) else st2
  }

  /** The address goes back to the pool, the reservation stays. */
  function ReleaseStep(st: Server, mac: Mac): Server {
    var i := Find(st.leases, ByMac(mac));
    if i == |st.leases| then st
    else
      var e := st.leases[i].(expiresUs := 0);
      st.Put(i, if st.bootSeq > 0 then e.(lastSeenSeq := st.bootSeq - 1) else e)
  }

  function Handle(cfg: Config, st: Server, now: int, leaseS: nat, m: Message): Handled
    requires cfg.Ok()
  {
    match m
    case Discover(mac, requested, onWire) =>
      var g := DiscoverStep(cfg, st, now, mac, requested, onWire);
      Handled(if g.ip == 0 then Silent else Offer(g.ip, leaseS), g.st)
    case Request(mac, requested, serverId, onWire) =>
      if serverId != 0 && serverId != cfg.serverIp then Handled(Silent, ElsewhereStep(st, mac))
      else
        var g := RequestStep(cfg, st, now, mac, requested, onWire, leaseS);
        Handled(if g.ip == 0 then Nak else Ack(g.ip, leaseS), g.st)
    case Decline(mac, requested) => Handled(Silent, DeclineStep(st, now, mac, requested))
    case Release(mac) => Handled(Silent, ReleaseStep(st, mac))
    case Inform(_, ciaddr) => Handled(if ciaddr != 0 then Ack(0, 0) else Silent, st)
    case Other => Handled(Silent, st)
  }

  // ---- events from the rest of the firmware ----

  /** Both addresses are in one subnet under `mask`. */
  predicate SameSubnet(a: u32, b: u32, mask: u32) {
    (a as bv32) & (mask as bv32) == (b as bv32) & (mask as bv32)
  }

  /** A source address this server takes as the client's own word. */
  predicate OnBridge(cfg: Config, ip: u32) {
    ip != 0 && SameSubnet(ip, cfg.serverIp, cfg.netmask) && ip != cfg.serverIp
  }

  function ObserveStep(cfg: Config, st: Server, now: int, mac: Mac, ip: u32): Server {
    if !OnBridge(cfg, ip) then st
    else
      var s := EntryFor(st, now, mac);
      if s.index == |st.leases| then st
      else
        var was := s.st.leases[s.index];
        var e := was.(observedIp := if ip == was.ip then 0 else ip,
                      lastSeenSeq := st.bootSeq, lastSeenUs := now);
        var st1 := s.st.Put(s.index, e);
        if e.savedObservedIp != Persisted(e) then st1.MarkDirty(now) else st1
  }

  function Flagged(e: Lease, macs: seq<Mac>): Lease {
    e.(quarantined := e.inUse && e.mac in macs)
  }

  /** The quarantine set pushed in from the conflict tracker. */
  function QuarantineStep(st: Server, now: int, macs: seq<Mac>): (r: Server)
    ensures |r.leases| == |st.leases|
    ensures forall k | 0 <= k < |st.leases| :: r.leases[k] == Flagged(st.leases[k], macs)
    ensures r.declined == st.declined && r.bootSeq == st.bootSeq
  {
    var ls := seq(|st.leases|, k requires 0 <= k < |st.leases| => Flagged(st.leases[k], macs));
    var st1 := st.(leases := ls);
    if exists k | 0 <= k < |ls| :: ls[k].inUse && ls[k].savedObservedIp != Persisted(ls[k])
    then st1.MarkDirty(now) else st1
  }

  datatype Event =
    | Receive(msg: Message, leaseS: nat)
    | Observe(mac: Mac, ip: u32)
    | Quarantine(macs: seq<Mac>)
    | Save(lands: bool)
    | PowerCycle

  /** The running server and what its flash holds. */
  datatype System = System(server: Server, flash: Option<seq<byte>>)

  function Step(cfg: Config, sys: System, now: int, ev: Event): (r: System)
    requires cfg.Ok() && |sys.server.leases| == MAX_LEASES
    ensures |r.server.leases| == MAX_LEASES
  {
    match ev
    case Receive(m, leaseS) => sys.(server := Handle(cfg, sys.server, now, leaseS, m).st)
    case Observe(mac, ip) => sys.(server := ObserveStep(cfg, sys.server, now, mac, ip))
    case Quarantine(macs) => sys.(server := QuarantineStep(sys.server, now, macs))
    case Save(lands) =>
      if lands then System(Saved(sys.server), Some(TableBlob(sys.server))) else sys
    case PowerCycle => sys.(server := Boot(sys.flash, now))
  }

  // ---- what every event keeps ----

  function FlashRecords(flash: Option<seq<byte>>): seq<Record> {
    if flash.None? || Parse(flash.value).None? then [] else Parse(flash.value).value.records
  }

  ghost predicate SavedAs(e: Lease, rs: seq<Record>) {
    || (e.savedIp == 0 && e.savedObservedIp == 0)
    || exists n | 0 <= n < |rs| ::
         rs[n].mac == e.mac && rs[n].ip == e.savedIp && rs[n].observedIp == e.savedObservedIp
  }

  /** Each entry's saved pair is blank or exactly the flash record of its client. */
  ghost predicate Backed(ls: seq<Lease>, rs: seq<Record>) {
    forall k | 0 <= k < |ls| && ls[k].inUse :: SavedAs(ls[k], rs)
  }

  ghost predicate SystemOk(sys: System) {
    && |sys.server.leases| == MAX_LEASES
    && |sys.server.declined| <= MAX_DECLINED
    && Distinct(sys.server.leases)
    && DistinctRecords(FlashRecords(sys.flash))
    && Backed(sys.server.leases, FlashRecords(sys.flash))
  }

  /** Slot by slot, the saved pair in `b` is the one in `a`, or blank. */
  ghost predicate Carries(a: seq<Lease>, b: seq<Lease>) {
    && |a| == |b|
    && forall k | 0 <= k < |b| && b[k].inUse ::
         || (b[k].savedIp == 0 && b[k].savedObservedIp == 0)
         || (a[k].inUse && a[k].mac == b[k].mac && a[k].savedIp == b[k].savedIp
             && a[k].savedObservedIp == b[k].savedObservedIp)
  }

  lemma CarriesBacked(a: seq<Lease>, b: seq<Lease>, rs: seq<Record>)
    requires Carries(a, b) && Backed(a, rs)
    ensures Backed(b, rs)
  {
    forall k | 0 <= k < |b| && b[k].inUse
      ensures SavedAs(b[k], rs)
    {
      if b[k].savedIp != 0 || b[k].savedObservedIp != 0 {
        assert SavedAs(a[k], rs);
      }
    }
  }

  lemma SelectCarries(cfg: Config, st: Server, now: int, mac: Mac, requested: u32, onWire: bool)
    requires cfg.Ok()
    ensures Carries(st.leases, Select(cfg, st, now, mac, requested, onWire).st.leases)
    decreases onWire
  {
    if Direct(cfg, st, now, mac, requested, onWire) {
      DirectGrantIsFree(cfg, st, now, mac, requested, onWire);
    } else if HasVictim(cfg, st, now, onWire) {
      ReclaimedGrant(cfg, st, now, mac, requested, onWire);
    } else if onWire {
      SelectCarries(cfg, st, now, mac, requested, false);
    }
  }

  lemma EntryForCarries(st: Server, now: int, mac: Mac)
    requires Distinct(st.leases)
    ensures Carries(st.leases, EntryFor(st, now, mac).st.leases)
  {
  }

  /** Clearing entries, or settling entry `i` without its saved pair, carries on. */
  lemma CarriesOn(a: seq<Lease>, b: seq<Lease>, c: seq<Lease>, i: nat)
    requires Carries(a, b) && |c| == |b|
    requires forall k | 0 <= k < |c| && k != i && c[k].inUse :: c[k] == b[k]
    requires i < |c| ==>
               && b[i].inUse && c[i].mac == b[i].mac && c[i].savedIp == b[i].savedIp
               && c[i].savedObservedIp == b[i].savedObservedIp
    ensures Carries(a, c)
  {
  }

  lemma CommitCarries(st: Server, now: int, mac: Mac, ip: u32, holdS: nat, persist: bool)
    requires Distinct(st.leases) && ip != 0
    ensures Carries(st.leases, Commit(st, now, mac, ip, holdS, persist).leases)
  {
    var s := EntryFor(st, now, mac);
    EntryForCarries(st, now, mac);
    EntryForKeepsDistinct(st, now, mac);
    CommitEffect(st, now, mac, ip, holdS, persist);
    CarriesOn(st.leases, s.st.leases, Commit(st, now, mac, ip, holdS, persist).leases, s.index);
  }

  lemma GrantStepKeeps(cfg: Config, st: Server, now: int, mac: Mac, requested: u32, onWire: bool, holdS: nat, persist: bool)
    requires cfg.Ok() && Distinct(st.leases)
    ensures var g := Select(cfg, st, now, mac, requested, onWire);
            && Distinct(g.st.leases) && Carries(st.leases, g.st.leases)
            && g.st.declined == st.declined
            && (g.ip != 0 ==>
                  var c := Commit(g.st, now, mac, g.ip, holdS, persist);
                  && Distinct(c.leases) && Carries(st.leases, c.leases) && c.declined == st.declined)
  {
    var g := Select(cfg, st, now, mac, requested, onWire);
    SelectKeepsDistinct(cfg, st, now, mac, requested, onWire);
    SelectCarries(cfg, st, now, mac, requested, onWire);
    if g.ip != 0 {
      CommitKeepsDistinct(g.st, now, mac, g.ip, holdS, persist);
      CommitCarries(g.st, now, mac, g.ip, holdS, persist);
      CommitEffect(g.st, now, mac, g.ip, holdS, persist);
    }
  }

  lemma DropCarries(ls: seq<Lease>, i: nat)
    requires i < |ls|
    ensures Carries(ls, ls[i := ls[i].(inUse := false)])
  {
  }

  lemma ElsewhereKeeps(st: Server, mac: Mac)
    requires Distinct(st.leases)
    ensures var r := ElsewhereStep(st, mac);
            Distinct(r.leases) && Carries(st.leases, r.leases) && r.declined == st.declined
  {
  }

  lemma DeclineKeeps(st: Server, now: int, mac: Mac, requested: u32)
    requires Distinct(st.leases) && |st.declined| <= MAX_DECLINED
    ensures var r := DeclineStep(st, now, mac, requested);
            Distinct(r.leases) && Carries(st.leases, r.leases) && |r.declined| <= MAX_DECLINED
  {
    var i := Find(st.leases, ByMac(mac));
    if i < |st.leases| {
      DropKeepsDistinct(st.leases, i);
      DropCarries(st.leases, i);
      assert DeclineStep(st, now, mac, requested).leases == st.leases[i := st.leases[i].(inUse := false)];
    }
  }

  /** Changing neither the client of entry `i`, nor its lease, nor its saved pair. */
  lemma TouchKeeps(a: seq<Lease>, b: seq<Lease>, i: nat, e: Lease)
    requires Distinct(b) && Carries(a, b) && i < |b| && b[i].inUse && e.inUse
    requires e.mac == b[i].mac && e.ip == b[i].ip
    requires e.savedIp == b[i].savedIp && e.savedObservedIp == b[i].savedObservedIp
    ensures Distinct(b[i := e]) && Carries(a, b[i := e])
  {
  }

  lemma ReleaseKeeps(st: Server, mac: Mac)
    requires Distinct(st.leases)
    ensures var r := ReleaseStep(st, mac);
            Distinct(r.leases) && Carries(st.leases, r.leases) && r.declined == st.declined
  {
    var r, i := ReleaseStep(st, mac), Find(st.leases, ByMac(mac));
    if i < |st.leases| {
      TouchKeeps(st.leases, st.leases, i, r.leases[i]);
      assert r.leases == st.leases[i := r.leases[i]];
    }
  }

  /** Every message leaves the table's clients and leased addresses distinct. */
  lemma HandleKeeps(cfg: Config, st: Server, now: int, leaseS: nat, m: Message)
    requires cfg.Ok() && Distinct(st.leases) && |st.declined| <= MAX_DECLINED
    ensures var r := Handle(cfg, st, now, leaseS, m).st;
            Distinct(r.leases) && Carries(st.leases, r.leases) && |r.declined| <= MAX_DECLINED
  {
    match m
    case Discover(mac, requested, onWire) =>
      GrantStepKeeps(cfg, st, now, mac, requested, onWire, OFFER_HOLD_S, false);
    case Request(mac, requested, serverId, onWire) =>
      ElsewhereKeeps(st, mac);
      GrantStepKeeps(cfg, st, now, mac, requested, onWire, leaseS, true);
    case Decline(mac, requested) =>
      DeclineKeeps(st, now, mac, requested);
    case Release(mac) =>
      ReleaseKeeps(st, mac);
    case _ =>
  }

  lemma ObserveKeeps(cfg: Config, st: Server, now: int, mac: Mac, ip: u32)
    requires Distinct(st.leases)
    ensures var r := ObserveStep(cfg, st, now, mac, ip);
            Distinct(r.leases) && Carries(st.leases, r.leases) && r.declined == st.declined
  {
    var s, r := EntryFor(st, now, mac), ObserveStep(cfg, st, now, mac, ip);
    EntryForKeepsDistinct(st, now, mac);
    EntryForCarries(st, now, mac);
    if OnBridge(cfg, ip) && s.index < |st.leases| {
      TouchKeeps(st.leases, s.st.leases, s.index, r.leases[s.index]);
      assert r.leases == s.st.leases[s.index := r.leases[s.index]];
    }
  }

  lemma SaveKeeps(st: Server)
    requires |st.leases| == MAX_LEASES && Distinct(st.leases)
    ensures FlashRecords(Some(TableBlob(st))) == Records(st.leases, MAX_LEASES)
    ensures Distinct(Saved(st).leases) && DistinctRecords(Records(st.leases, MAX_LEASES))
    ensures Backed(Saved(st).leases, Records(st.leases, MAX_LEASES))
  {
    BlobRoundTrip(Records(st.leases, MAX_LEASES), st.bootSeq);
    RecordsDistinct(st.leases, MAX_LEASES);
    SavedIsBacked(st);
  }

  lemma SavedIsBacked(st: Server)
    requires |st.leases| == MAX_LEASES
    ensures Backed(Saved(st).leases, Records(st.leases, MAX_LEASES))
  {
    var rs, ls := Records(st.leases, MAX_LEASES), Saved(st).leases;
    RecordsSound(st.leases, MAX_LEASES);
    forall k | 0 <= k < |ls| && ls[k].inUse
      ensures SavedAs(ls[k], rs)
    {
      if Storable(st.leases[k]) {
        assert RecordOf(st.leases[k]) in rs;
      }
    }
  }

  lemma SettledBacked(img: Image, bootSeq: u32, k: nat)
    requires k < |Restored(img, bootSeq, |img.records|)|
    ensures SavedAs(Settle(Restored(img, bootSeq, |img.records|), k), img.records)
  {
    var read := Restored(img, bootSeq, |img.records|);
    RestoredSound(img, bootSeq, |img.records|);
    assert read[k] in read;
    var n :| 0 <= n < |img.records| && Keeps(img.version, img.records[n], bootSeq)
             && LeaseOf(img.records[n]) == read[k];
  }

  lemma BootBacked(flash: Option<seq<byte>>, now: int)
    ensures Backed(Boot(flash, now).leases, FlashRecords(flash))
    ensures Boot(flash, now).declined == []
  {
    if flash.Some? && Parse(flash.value).Some? {
      var img := Parse(flash.value).value;
      var bootSeq := NextGeneration(img.bootSeq);
      var read := Restored(img, bootSeq, |img.records|);
      var ls := Boot(flash, now).leases;
      assert ls == Padded(DropDisputed(read));
      forall k | 0 <= k < |ls| && ls[k].inUse
        ensures SavedAs(ls[k], img.records)
      {
        assert k < |read| && ls[k] == Settle(read, k);
        SettledBacked(img, bootSeq, k);
      }
    }
  }

  /** The table invariant: kept by every message, observation, quarantine push,
      save and power cycle, at any time and in any order. */
  lemma StepKeepsOk(cfg: Config, sys: System, now: int, ev: Event)
    requires cfg.Ok() && SystemOk(sys)
    ensures SystemOk(Step(cfg, sys, now, ev))
  {
    var st := sys.server;
    var rs := FlashRecords(sys.flash);
    match ev
    case Receive(m, leaseS) =>
      HandleKeeps(cfg, st, now, leaseS, m);
      CarriesBacked(st.leases, Handle(cfg, st, now, leaseS, m).st.leases, rs);
    case Observe(mac, ip) =>
      ObserveKeeps(cfg, st, now, mac, ip);
      CarriesBacked(st.leases, ObserveStep(cfg, st, now, mac, ip).leases, rs);
    case Quarantine(macs) =>
      CarriesBacked(st.leases, QuarantineStep(st, now, macs).leases, rs);
    case Save(lands) =>
      SaveKeeps(st);
    case PowerCycle =>
      BootDistinct(sys.flash, now);
      BootBacked(sys.flash, now);
  }

  // ---- whole runs ----

  datatype Timed = Timed(now: int, ev: Event)

  function Run(cfg: Config, sys: System, run: seq<Timed>): (r: System)
    requires cfg.Ok() && |sys.server.leases| == MAX_LEASES
    ensures |r.server.leases| == MAX_LEASES
    decreases |run|
  {
    if run == [] then sys else Run(cfg, Step(cfg, sys, run[0].now, run[0].ev), run[1..])
  }

  /** Along any run: distinct clients, distinct leased addresses, and saved pairs that
      are blank or in flash. */
  lemma {:induction false} RunKeepsOk(cfg: Config, sys: System, run: seq<Timed>)
    requires cfg.Ok() && SystemOk(sys)
    ensures SystemOk(Run(cfg, sys, run))
    decreases |run|
  {
    if run != [] {
      StepKeepsOk(cfg, sys, run[0].now, run[0].ev);
      RunKeepsOk(cfg, Step(cfg, sys, run[0].now, run[0].ev), run[1..]);
    }
  }

  lemma PowerOnIsOk(flash: Option<seq<byte>>, now: int)
    requires DistinctRecords(FlashRecords(flash))
    ensures SystemOk(System(Boot(flash, now), flash))
  {
    BootDistinct(flash, now);
    BootBacked(flash, now);
  }

  /** And so from power-on, over any flash whose records are distinct, an empty one
      among them. */
  lemma PowerOnRunKeepsOk(cfg: Config, flash: Option<seq<byte>>, t0: int, run: seq<Timed>)
    requires cfg.Ok() && DistinctRecords(FlashRecords(flash))
    ensures SystemOk(Run(cfg, System(Boot(flash, t0), flash), run))
  {
    PowerOnIsOk(flash, t0);
    RunKeepsOk(cfg, System(Boot(flash, t0), flash), run);
  }
}

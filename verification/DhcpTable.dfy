/**
 The lease table of the bridge's DHCP server and the choices made over it:
 lookups, which entry to give up, which address to grant, and recording a grant.

 Addresses are held as host-order integers (0 for "none"); see `Bytes.Be` for the
 order they have in flash. The table is a sequence of slots; the class in
 `DhcpServer.dfy` keeps it in an array and is proved against these functions.
 */
module DhcpTable {
  import opened Bytes

  const MAX_LEASES: nat := 32
  const MAX_DECLINED: nat := 8
  const OFFER_HOLD_S: nat := 30
  const US_PER_S: int := 1_000_000

  datatype Lease = Lease(
    inUse: bool,
    mac: Mac,
    ip: u32,
    observedIp: u32,
    savedIp: u32,
    savedObservedIp: u32,
    expiresUs: int,
    lastSeenSeq: u32,
    lastSeenUs: int,
    quarantined: bool)

  const ZERO_LEASE := Lease(false, NO_MAC, 0, 0, 0, 0, 0, 0, 0, false)

  datatype Range = Range(start: u32, end: u32) {
    /** Membership of one served range; 0 is in no range, and 0/0 is no range. */
    predicate Has(ip: u32) {
      ip != 0 && start != 0 && start <= ip <= end
    }
  }

  datatype Config = Config(serverIp: u32, netmask: u32, pool: Range, wired: Range) {
    /** What a successful start of the server establishes. */
    predicate Ok() {
      && serverIp != 0
      && pool.start != 0 && pool.start <= pool.end
      && (wired.start != 0 ==>
            && wired.start <= wired.end
            && !wired.Has(serverIp)
            && (wired.end < pool.start || pool.end < wired.start))
    }

    /** The range a request is answered from, by the port it came in on. */
    function Served(onWire: bool): Range {
      if onWire && wired.start != 0 then wired else pool
    }
  }

  datatype Server = Server(
    leases: seq<Lease>,
    declined: seq<u32>,
    bootSeq: u32,
    dirty: bool,
    dirtySinceUs: int)
  {
    function MarkDirty(now: int): Server {
      if dirty then this else this.(dirty := true, dirtySinceUs := now)
    }

    function Put(i: nat, e: Lease): (st: Server)
      requires i < |leases|
    {
      this.(leases := leases[i := e])
    }
  }

  // ---- lookups ----

  /** The four table scans: by client, by leased address, by address claimed
      either way, and for a free slot. */
  datatype Query = ByMac(mac: Mac) | ByIp(ip: u32) | ByAnyIp(ip: u32) | Free {
    predicate Matches(e: Lease) {
      match this
      case ByMac(m) => e.inUse && e.mac == m
      case ByIp(a) => e.inUse && e.ip == a
      case ByAnyIp(a) => e.inUse && !e.quarantined && (e.ip == a || e.observedIp == a)
      case Free => !e.inUse
    }
  }

  /** The first slot that matches, or the table's length. */
  function Find(ls: seq<Lease>, q: Query): (r: nat)
    ensures r <= |ls|
    ensures r < |ls| ==> q.Matches(ls[r])
    ensures forall k | 0 <= k < r :: !q.Matches(ls[k])
  {
    if |ls| == 0 then 0
    else if q.Matches(ls[0]) then 0
    else 1 + Find(ls[1..], q)
  }

  lemma FindIs(ls: seq<Lease>, q: Query, r: nat)
    requires r <= |ls|
    requires r < |ls| ==> q.Matches(ls[r])
    requires forall k | 0 <= k < r :: !q.Matches(ls[k])
    ensures Find(ls, q) == r
  {
  }

  /** An entry that really holds `ip`: seen using it, or with an unexpired lease. */
  predicate Claims(e: Lease, ip: u32, now: int) {
    e.inUse && !e.quarantined && (e.observedIp == ip || (e.ip == ip && e.expiresUs >= now))
  }

  predicate InUse(ls: seq<Lease>, ip: u32, except: nat, now: int) {
    exists k | 0 <= k < |ls| :: k != except && Claims(ls[k], ip, now)
  }

  // ---- reclaiming ----

  predicate SeenThisBoot(e: Lease, bootSeq: u32) {
    e.lastSeenSeq >= bootSeq
  }

  predicate Older(a: Lease, b: Lease) {
    if a.lastSeenSeq != b.lastSeenSeq then a.lastSeenSeq < b.lastSeenSeq
    else a.lastSeenUs < b.lastSeenUs
  }

  /** The address in `r` that dropping this entry would release, or 0. */
  function Reclaimable(e: Lease, r: Range): (ip: u32)
    ensures ip != 0 ==> r.Has(ip) && (ip == e.ip || ip == e.observedIp)
    ensures ip == 0 <==> !r.Has(e.ip) && !r.Has(e.observedIp)
  {
    if r.Has(e.ip) then e.ip
    else if r.Has(e.observedIp) then e.observedIp
    else 0
  }

  datatype Need = AnySlot | AddressIn(range: Range)

  /** Who may be given up in one pass: a lapsed plain lease in the first, a
      self-addressed entry in the second, never one heard from this boot. */
  predicate Eligible(e: Lease, selfAddressed: bool, need: Need, st: Server, now: int) {
    && e.inUse
    && !SeenThisBoot(e, st.bootSeq)
    && (e.observedIp != 0) == selfAddressed
    && (selfAddressed || e.expiresUs < now)
    && (need.AddressIn? ==>
          Reclaimable(e, need.range) != 0 && Reclaimable(e, need.range) !in st.declined)
  }

  /** The first of the oldest eligible entries among the first `n`, or the table's length. */
  function Oldest(st: Server, selfAddressed: bool, need: Need, now: int, n: nat): (r: nat)
    requires n <= |st.leases|
    ensures r == |st.leases| || r < n
    ensures r == |st.leases| ==>
              forall k | 0 <= k < n :: !Eligible(st.leases[k], selfAddressed, need, st, now)
    ensures r < n ==>
              && Eligible(st.leases[r], selfAddressed, need, st, now)
              && forall k | 0 <= k < n && Eligible(st.leases[k], selfAddressed, need, st, now) ::
                   !Older(st.leases[k], st.leases[r])
  {
    if n == 0 then |st.leases|
    else
      var best := Oldest(st, selfAddressed, need, now, n - 1);
      var e := st.leases[n - 1];
      if Eligible(e, selfAddressed, need, st, now)
         && (best == |st.leases| || Older(e, st.leases[best]))
      then n - 1 else best
  }

  function PickVictim(st: Server, need: Need, now: int): (r: nat)
    ensures r <= |st.leases|
  {
    var plain := Oldest(st, false, need, now, |st.leases|);
    if plain < |st.leases| then plain else Oldest(st, true, need, now, |st.leases|)
  }

  function Reclaim(st: Server, i: nat, now: int): (r: Server)
    requires i < |st.leases|
    ensures r.leases == st.leases[i := st.leases[i].(inUse := false)]
    ensures r.declined == st.declined && r.bootSeq == st.bootSeq
  {
    var e := st.leases[i];
    var st1 := st.Put(i, e.(inUse := false));
    if e.savedIp != 0 || e.savedObservedIp != 0 then st1.MarkDirty(now) else st1
  }

  // ---- choosing an address ----

  /** Step 1: the client's own reservation still stands in this range. */
  predicate KeepsOwn(st: Server, mine: nat, r: Range, now: int) {
    && mine < |st.leases|
    && !st.leases[mine].quarantined
    && MayTake(st, st.leases[mine].ip, mine, r, now)
  }

  /** Step 2: an address in the range that nobody else is on. */
  predicate MayTake(st: Server, ip: u32, mine: nat, r: Range, now: int) {
    r.Has(ip) && ip !in st.declined && !InUse(st.leases, ip, mine, now)
  }

  /** Step 3 hands out only an address that no entry names at all. */
  predicate Unclaimed(cfg: Config, st: Server, ip: u32) {
    ip != cfg.serverIp && ip !in st.declined && Find(st.leases, ByAnyIp(ip)) == |st.leases|
  }

  /** The lowest unclaimed address in [a, end], or 0. */
  function FirstUnclaimed(cfg: Config, st: Server, a: int, end: u32): (ip: u32)
    requires 0 < a <= end + 1
    ensures ip == 0 ==> forall x: u32 | a <= x <= end :: !Unclaimed(cfg, st, x)
    ensures ip != 0 ==>
              && a <= ip <= end && Unclaimed(cfg, st, ip)
              && forall x: u32 | a <= x < ip :: !Unclaimed(cfg, st, x)
    decreases end + 1 - a
  {
    if a > end then 0
    else if Unclaimed(cfg, st, a) then a
    else FirstUnclaimed(cfg, st, a + 1, end)
  }

  datatype Grant = Grant(ip: u32, st: Server)

  function Select(cfg: Config, st: Server, now: int, mac: Mac, requested: u32, onWire: bool): (g: Grant)
    requires cfg.Ok()
    ensures |g.st.leases| == |st.leases|
    decreases onWire
  {
    var mine := Find(st.leases, ByMac(mac));
    var r := cfg.Served(onWire);
    if KeepsOwn(st, mine, r, now) then Grant(st.leases[mine].ip, st)
    else if MayTake(st, requested, mine, r, now) then Grant(requested, st)
    else
      var free := FirstUnclaimed(cfg, st, r.start, r.end);
      if free != 0 then Grant(free, st) else SelectByReclaim(cfg, st, now, mac, requested, onWire)
  }

  /** Step 4, and the one-way fall from the wired range to the general pool. */
  function SelectByReclaim(cfg: Config, st: Server, now: int, mac: Mac, requested: u32, onWire: bool): (g: Grant)
    requires cfg.Ok()
    ensures |g.st.leases| == |st.leases|
    decreases onWire, 0
  {
    var r := cfg.Served(onWire);
    var v := PickVictim(st, AddressIn(r), now);
    if v < |st.leases| then Grant(Reclaimable(st.leases[v], r), Reclaim(st, v, now))
    else if onWire && r.start == cfg.wired.start && cfg.wired.start != 0 then
      Select(cfg, st, now, mac, requested, false)
    else Grant(0, st)
  }

  // ---- recording a grant ----

  datatype Slot = Slot(index: nat, st: Server)

  /** A slot for a client that has none: a free one, else a reclaimed one. The index is
      the table's length when every slot is a client heard this boot, or still holding
      a plain lease. */
  function TakeSlot(st: Server, now: int, mac: Mac): (r: Slot)
    ensures r.index <= |st.leases| && |r.st.leases| == |st.leases|
    ensures r.index == |st.leases| ==> r.st == st
    ensures r.index == |st.leases| <==>
              forall k | 0 <= k < |st.leases| ::
                && st.leases[k].inUse
                && (SeenThisBoot(st.leases[k], st.bootSeq)
                    || (st.leases[k].observedIp == 0 && st.leases[k].expiresUs >= now))
    ensures r.index < |st.leases| ==>
              && r.st.leases == st.leases[r.index := ZERO_LEASE.(inUse := true, mac := mac)]
              && r.st.declined == st.declined && r.st.bootSeq == st.bootSeq
  {
    var free := Find(st.leases, Free);
    var i := if free < |st.leases| then free else PickVictim(st, AnySlot, now);
    if i == |st.leases| then Slot(i, st)
    else
      var st1 := if free < |st.leases| then st else Reclaim(st, i, now);
      Slot(i, st1.Put(i, ZERO_LEASE.(inUse := true, mac := mac)))
  }

  /** The client's entry, found or claimed. */
  function EntryFor(st: Server, now: int, mac: Mac): (r: Slot)
    ensures r.index <= |st.leases| && |r.st.leases| == |st.leases|
  {
    var mine := Find(st.leases, ByMac(mac));
    if mine < |st.leases| then Slot(mine, st) else TakeSlot(st, now, mac)
  }

  /** Clears the previous holder of an address being handed to entry `i`. */
  function ClearClash(st: Server, i: nat, ip: u32, now: int): (r: Server)
    requires i < |st.leases|
    ensures |r.leases| == |st.leases|
  {
    var clash := Find(st.leases, ByIp(ip));
    if clash < |st.leases| && clash != i then
      var e := st.leases[clash];
      var st1 := st.Put(clash, e.(inUse := false));
      if e.savedIp != 0 then st1.MarkDirty(now) else st1
    else st
  }

  function Commit(st: Server, now: int, mac: Mac, ip: u32, holdS: nat, persist: bool): (r: Server)
    ensures |r.leases| == |st.leases|
  {
    var slot := EntryFor(st, now, mac);
    if slot.index == |st.leases| then st
    else
      var st1 := ClearClash(slot.st, slot.index, ip, now);
      var e := st1.leases[slot.index].(
        ip := ip,
        expiresUs := now + holdS * US_PER_S,
        lastSeenSeq := st1.bootSeq,
        lastSeenUs := now);
      var st2 := st1.Put(slot.index, e);
      if persist && e.savedIp != e.ip then st2.MarkDirty(now) else st2
  }
}

/**
 The running server: the lease table in its array, updated in place. Every method
 is proved to do exactly what the specification functions on values say, so the
 results about those functions hold of it.
 */
module DhcpServer {
  import opened Bytes
  import opened DhcpTable
  import opened DhcpFlash
  import opened DhcpEvents
  import opened DhcpOptions
  import opened DhcpReport

  /** The range checks made at start. None refuses to start; an unusable wired
      range is switched off instead, leaving one pool for every port. */
  function StartConfig(ip: u32, netmask: u32, pool: Range, wired: Range): (r: Option<Config>)
    ensures r.None? <==> ip == 0 || pool.start == 0 || pool.end == 0 || pool.start > pool.end
    ensures r.Some? ==>
              && r.value.Ok()
              && r.value.serverIp == ip && r.value.pool == pool
              && (r.value.wired == wired || r.value.wired.start == 0)
    ensures r.Some? && wired.start != 0 && r.value.wired != wired ==>
              || wired.end == 0 || wired.start > wired.end || wired.Has(ip)
              || (exists x: u32 :: pool.Has(x) && wired.Has(x))
              || !SameSubnet(wired.start, ip, netmask) || !SameSubnet(wired.end, ip, netmask)
  {
    if ip == 0 || pool.start == 0 || pool.end == 0 then None
    else if pool.start > pool.end then None
    else
      var bad :=
        || wired.end == 0 || wired.start > wired.end
        || (wired.start <= pool.end && pool.start <= wired.end)
        || wired.Has(ip)
        || !SameSubnet(wired.start, ip, netmask)
        || !SameSubnet(wired.end, ip, netmask);
      var both := if wired.start < pool.start then pool.start else wired.start;
      assert wired.start != 0 && wired.start <= wired.end && wired.start <= pool.end && pool.start <= wired.end ==>
          pool.Has(both) && wired.Has(both);
      Some(Config(ip, netmask, pool, if wired.start != 0 && bad then Range(0, 0) else wired))
  }

  class DhcpServer {
    const cfg: Config
    const leases: array<Lease>
    var declined: seq<u32>
    var bootSeq: u32
    var dirty: bool
    var dirtySinceUs: int
    var restoredCount: nat

    ghost predicate Valid()
      reads this
    {
      cfg.Ok() && leases.Length == MAX_LEASES
    }

    function State(): Server
      reads this, leases
    {
      Server(leases[..], declined, bootSeq, dirty, dirtySinceUs)
    }

    /** Power-on: a table restored from whatever flash holds. */
    constructor (config: Config, flash: Option<seq<byte>>, now: int)
      requires config.Ok()
      ensures Valid() && cfg == config && fresh(leases)
      ensures State() == Boot(flash, now)
    {
      cfg := config;
      leases := new Lease[MAX_LEASES](_ => ZERO_LEASE);
      declined, bootSeq, dirty, dirtySinceUs, restoredCount := [], 1, false, 0, 0;
      new;
      assert leases[..] == Padded([]);
      LoadFromNvs(flash, now);
    }

    method MarkDirty(now: int)
      modifies this`dirty, this`dirtySinceUs
      ensures State() == old(State()).MarkDirty(now)
    {
      if !dirty {
        dirty, dirtySinceUs := true, now;
      }
    }

    // ---- loading and saving ----

    method LoadFromNvs(flash: Option<seq<byte>>, now: int)
      requires Valid() && State() == EMPTY
      modifies this, leases
      ensures State() == Boot(flash, now)
    {
      bootSeq := 1;
      if flash.None? || Parse(flash.value).None? {
        return;
      }
      LoadImage(Parse(flash.value).value, now);
    }

    method LoadImage(img: Image, now: int)
      requires Valid() && State() == EMPTY && |img.records| <= MAX_LEASES
      modifies this, leases
      ensures State() == BootImage(img, now)
    {
      bootSeq := NextGeneration(img.bootSeq);
      var n := ReadRecords(img);
      ghost var read := leases[..n];
      var forgotten := |img.records| - n;
      var dropped := ForgetDisputed(n);
      assert leases[..] == Padded(DropDisputed(read)) by {
        assert leases[..] == leases[..n] + leases[n..];
      }
      if dropped {
        MarkDirty(now);
      }
      if forgotten > 0 {
        MarkDirty(now);
      }
      restoredCount := n;
    }

    method ReadRecords(img: Image) returns (n: nat)
      requires Valid() && leases[..] == Padded([]) && |img.records| <= MAX_LEASES
      modifies leases
      ensures n <= MAX_LEASES && leases[..n] == Restored(img, bootSeq, |img.records|)
      ensures forall k | n <= k < MAX_LEASES :: leases[k] == ZERO_LEASE
    {
      n := 0;
      for i := 0 to |img.records|
        invariant n <= i && leases[..n] == Restored(img, bootSeq, i)
        invariant forall k | n <= k < MAX_LEASES :: leases[k] == ZERO_LEASE
      {
        var r := img.records[i];
        if img.version >= 3 {
          var age := if bootSeq > r.lastSeenSeq then bootSeq - r.lastSeenSeq else 0;
          if age > FORGET_AFTER_BOOTS {
            continue;
          }
        }
        Restore(n, r);
        n := n + 1;
      }
    }

    method Restore(n: nat, r: Record)
      requires Valid() && n < MAX_LEASES && leases[n] == ZERO_LEASE
      modifies leases
      ensures leases[..n + 1] == old(leases[..n]) + [LeaseOf(r)]
      ensures forall k | n < k < MAX_LEASES :: leases[k] == old(leases[k])
    {
      leases[n] := leases[n].(
        inUse := true, mac := r.mac, ip := r.ip, observedIp := r.observedIp,
        savedIp := r.ip, savedObservedIp := r.observedIp,
        expiresUs := 0, lastSeenSeq := r.lastSeenSeq, lastSeenUs := 0);
    }

    /** Somebody else among the first `n` claims the address entry `i` was seen using. */
    method IsDisputed(i: nat, n: nat) returns (disputed: bool)
      requires Valid() && i < n <= MAX_LEASES
      ensures disputed == Disputed(leases[..n], i)
    {
      ghost var read := leases[..n];
      if leases[i].observedIp == 0 {
        return false;
      }
      for j := 0 to n
        invariant forall k | 0 <= k < j && k != i ::
                    read[k].ip != read[i].observedIp && read[k].observedIp != read[i].observedIp
      {
        if j == i {
          continue;
        }
        if leases[j].ip == leases[i].observedIp || leases[j].observedIp == leases[i].observedIp {
          assert read[j].ip == read[i].observedIp || read[j].observedIp == read[i].observedIp;
          return true;
        }
      }
      return false;
    }

    method MarkDisputed(n: nat) returns (drop: array<bool>)
      requires Valid() && n <= MAX_LEASES
      ensures fresh(drop) && drop.Length == MAX_LEASES
      ensures forall k | 0 <= k < n :: drop[k] == Disputed(leases[..n], k)
    {
      drop := new bool[MAX_LEASES](_ => false);
      for i := 0 to n
        invariant forall k | 0 <= k < i :: drop[k] == Disputed(leases[..n], k)
      {
        drop[i] := IsDisputed(i, n);
      }
    }

    /** Both passes over the restored entries: mark, then clear. */
    method ForgetDisputed(n: nat) returns (any: bool)
      requires Valid() && n <= MAX_LEASES
      modifies leases
      ensures leases[..n] == DropDisputed(old(leases[..n]))
      ensures leases[n..] == old(leases[n..])
      ensures any <==> leases[..n] != old(leases[..n])
    {
      ghost var read := leases[..n];
      var drop := MarkDisputed(n);
      any := false;
      for i := 0 to n
        invariant forall k | 0 <= k < n :: drop[k] == Disputed(read, k)
        invariant forall k | 0 <= k < i :: leases[k] == Settle(read, k)
        invariant forall k | i <= k < MAX_LEASES :: leases[k] == old(leases[k])
        invariant any <==> exists k | 0 <= k < i :: drop[k]
      {
        if drop[i] {
          leases[i] := leases[i].(observedIp := 0);
          any := true;
        }
      }
      assert any ==> leases[..n] != read by {
        if any {
          var k :| 0 <= k < n && drop[k];
          assert leases[..n][k] != read[k];
        }
      }
    }

    /** Copies `s` into `buf` at `off`, as `memcpy` does. */
    static method PutBytes(buf: array<byte>, off: nat, s: seq<byte>)
      requires off + |s| <= buf.Length
      modifies buf
      ensures buf[..] == old(buf[..off]) + s + old(buf[off + |s|..])
    {
      for i := 0 to |s|
        invariant buf[..] == old(buf[..off]) + s[..i] + old(buf[off + i..])
      {
        buf[off + i] := s[i];
      }
    }

    static method PutRecord(buf: array<byte>, off: nat, e: Lease, ghost rs: seq<Record>)
      requires 12 <= off && off + 18 <= buf.Length && buf[12..off] == EncodeRecords(STORE_VERSION, rs)
      modifies buf
      ensures buf[12..off + 18] == EncodeRecords(STORE_VERSION, rs + [RecordOf(e)])
    {
      ghost var was := buf[..];
      var bytes := EncodeRecord(Record(e.mac, e.ip, Persisted(e), e.lastSeenSeq));
      PutBytes(buf, off, bytes);
      assert buf[12..off + 18] == was[12..off] + bytes;
      AppendRecord(rs, RecordOf(e));
    }

    /** Lays the storable entries out after the header. */
    method FillRecords(buf: array<byte>) returns (off: nat, count: nat)
      requires Valid() && buf.Length == BLOB_MAX
      modifies buf
      ensures count == |Records(leases[..], MAX_LEASES)| && off == 12 + 18 * count <= buf.Length
      ensures buf[12..off] == EncodeRecords(STORE_VERSION, Records(leases[..], MAX_LEASES))
    {
      ghost var ls := leases[..];
      off, count := 12, 0;
      for i := 0 to MAX_LEASES
        invariant count <= i && off == 12 + 18 * count && leases[..] == ls
        invariant count == |Records(ls, i)|
        invariant buf[12..off] == EncodeRecords(STORE_VERSION, Records(ls, i))
      {
        var e := leases[i];
        var observed := Persisted(e);
        if !e.inUse || (e.ip == 0 && observed == 0) {
          continue;
        }
        PutRecord(buf, off, e, Records(ls, i));
        off, count := off + 18, count + 1;
      }
    }

    /** Writes the whole table out. `lands` is whether flash took the write. */
    method SaveToNvs(lands: bool) returns (blob: seq<byte>)
      requires Valid()
      modifies this`dirty, leases
      ensures blob == TableBlob(old(State()))
      ensures State() == if lands then Saved(old(State())) else old(State())
    {
      var buf := new byte[BLOB_MAX](_ => 0);
      var off, count := FillRecords(buf);
      ghost var body := buf[12..off];
      PutHeader(buf, off, count);
      blob := buf[..off];
      if lands {
        MarkAllSaved();
        dirty := false;
      }
    }

    method PutHeader(buf: array<byte>, off: nat, count: u16)
      requires 12 <= off <= buf.Length
      modifies buf
      ensures buf[..off] == EncodeHeader(STORE_VERSION, count, bootSeq) + old(buf[12..off])
    {
      var header := EncodeHeader(STORE_VERSION, count, bootSeq);
      ghost var was := buf[..];
      PutBytes(buf, 0, header);
      assert buf[..] == header + was[12..];
    }

    method MarkAllSaved()
      requires Valid()
      modifies leases
      ensures forall k | 0 <= k < MAX_LEASES :: leases[k] == MarkSaved(old(leases[k]))
      ensures leases[..] == Saved(old(State())).leases
    {
      for i := 0 to MAX_LEASES
        invariant forall k | 0 <= k < i :: leases[k] == MarkSaved(old(leases[k]))
        invariant forall k | i <= k < MAX_LEASES :: leases[k] == old(leases[k])
      {
        if leases[i].inUse {
          leases[i] := leases[i].(savedIp := leases[i].ip, savedObservedIp := Persisted(leases[i]));
        }
      }
    }

    // ---- table scans ----

    method FindSlot(q: Query) returns (r: nat)
      requires Valid()
      ensures r == Find(leases[..], q)
    {
      r := 0;
      while r < MAX_LEASES
        invariant r <= MAX_LEASES
        invariant forall k | 0 <= k < r :: !q.Matches(leases[k])
      {
        if q.Matches(leases[r]) {
          break;
        }
        r := r + 1;
      }
      FindIs(leases[..], q, r);
    }

    method IpInUse(ip: u32, except: nat, now: int) returns (used: bool)
      requires Valid()
      ensures used == InUse(leases[..], ip, except, now)
    {
      for i := 0 to MAX_LEASES
        invariant forall k | 0 <= k < i :: k == except || !Claims(leases[k], ip, now)
      {
        var e := leases[i];
        if !e.inUse || i == except || e.quarantined {
          continue;
        }
        if e.observedIp == ip || (e.ip == ip && e.expiresUs >= now) {
          assert Claims(leases[..][i], ip, now);
          return true;
        }
      }
      return false;
    }

    method VictimOfKind(selfAddressed: bool, need: Need, now: int) returns (best: nat)
      requires Valid()
      ensures best == Oldest(State(), selfAddressed, need, now, MAX_LEASES)
    {
      best := MAX_LEASES;
      for i := 0 to MAX_LEASES
        invariant best == Oldest(State(), selfAddressed, need, now, i)
      {
        var e := leases[i];
        if !e.inUse || SeenThisBoot(e, bootSeq) {
          continue;
        }
        if (e.observedIp != 0) != selfAddressed {
          continue;
        }
        if !selfAddressed && e.expiresUs >= now {
          continue;
        }
        if need.AddressIn? {
          var ip := Reclaimable(e, need.range);
          if ip == 0 || ip in declined {
            continue;
          }
        }
        if best == MAX_LEASES || Older(e, leases[best]) {
          best := i;
        }
      }
    }

    method PickVictim(need: Need, now: int) returns (v: nat)
      requires Valid()
      ensures v == DhcpTable.PickVictim(State(), need, now)
    {
      v := VictimOfKind(false, need, now);
      if v == MAX_LEASES {
        v := VictimOfKind(true, need, now);
      }
    }

    // ---- choosing and recording an address ----

    method Reclaim(i: nat, now: int)
      requires Valid() && i < MAX_LEASES
      modifies this`dirty, this`dirtySinceUs, leases
      ensures State() == DhcpTable.Reclaim(old(State()), i, now)
    {
      leases[i] := leases[i].(inUse := false);
      if leases[i].savedIp != 0 || leases[i].savedObservedIp != 0 {
        MarkDirty(now);
      }
    }

    method ScanRange(r: Range) returns (ip: u32)
      requires Valid() && r.start != 0 && r.start <= r.end
      ensures ip == FirstUnclaimed(cfg, State(), r.start, r.end)
    {
      var a: int := r.start;
      while a <= r.end
        invariant r.start <= a <= r.end + 1
        invariant FirstUnclaimed(cfg, State(), a, r.end) == FirstUnclaimed(cfg, State(), r.start, r.end)
      {
        if a == cfg.serverIp || a in declined {
          a := a + 1;
          continue;
        }
        var holder := FindSlot(ByAnyIp(a));
        if holder == MAX_LEASES {
          return a;
        }
        a := a + 1;
      }
      return 0;
    }

    /** Steps 1 to 3; 0 when none of them answers. */
    method SelectDirect(mac: Mac, requested: u32, onWire: bool, now: int) returns (ip: u32)
      requires Valid()
      ensures Select(cfg, State(), now, mac, requested, onWire) ==
              if ip != 0 then Grant(ip, State())
              else SelectByReclaim(cfg, State(), now, mac, requested, onWire)
    {
      var mine := FindSlot(ByMac(mac));
      var r := cfg.Served(onWire);
      if mine < MAX_LEASES && !leases[mine].quarantined {
        var mayKeep := MayGrant(leases[mine].ip, mine, r, now);
        if mayKeep {
          return leases[mine].ip;
        }
      }
      var mayTake := MayGrant(requested, mine, r, now);
      if mayTake {
        return requested;
      }
      ip := ScanRange(r);
    }

    method MayGrant(ip: u32, mine: nat, r: Range, now: int) returns (ok: bool)
      requires Valid()
      ensures ok == MayTake(State(), ip, mine, r, now)
    {
      if !r.Has(ip) || ip in declined {
        return false;
      }
      var used := IpInUse(ip, mine, now);
      return !used;
    }

    method SelectAddress(mac: Mac, requested: u32, onWire: bool, now: int) returns (ip: u32)
      requires Valid()
      modifies this`dirty, this`dirtySinceUs, leases
      ensures Grant(ip, State()) == Select(cfg, old(State()), now, mac, requested, onWire)
      decreases onWire
    {
      ip := SelectDirect(mac, requested, onWire, now);
      if ip != 0 {
        return;
      }
      var r := cfg.Served(onWire);
      var v := PickVictim(AddressIn(r), now);
      if v < MAX_LEASES {
        ip := Reclaimable(leases[v], r);
        Reclaim(v, now);
        return;
      }
      if onWire && r.start == cfg.wired.start && cfg.wired.start != 0 {
        ip := SelectAddress(mac, requested, false, now);
      }
    }

    method TakeFreeSlot(mac: Mac, now: int) returns (i: nat)
      requires Valid()
      modifies this`dirty, this`dirtySinceUs, leases
      ensures Slot(i, State()) == TakeSlot(old(State()), now, mac)
    {
      i := FindSlot(Free);
      if i == MAX_LEASES {
        i := PickVictim(AnySlot, now);
        if i == MAX_LEASES {
          return;
        }
        Reclaim(i, now);
      }
      leases[i] := ZERO_LEASE.(inUse := true, mac := mac);
    }

    method FindOrTake(mac: Mac, now: int) returns (i: nat)
      requires Valid()
      modifies this`dirty, this`dirtySinceUs, leases
      ensures Slot(i, State()) == EntryFor(old(State()), now, mac)
    {
      i := FindSlot(ByMac(mac));
      if i == MAX_LEASES {
        i := TakeFreeSlot(mac, now);
      }
    }

    method CommitLease(mac: Mac, ip: u32, holdS: nat, persist: bool, now: int) returns (recorded: bool)
      requires Valid()
      modifies this`dirty, this`dirtySinceUs, leases
      ensures State() == Commit(old(State()), now, mac, ip, holdS, persist)
      ensures recorded == (EntryFor(old(State()), now, mac).index < MAX_LEASES)
    {
      var i := FindOrTake(mac, now);
      if i == MAX_LEASES {
        return false;
      }
      var clash := FindSlot(ByIp(ip));
      if clash < MAX_LEASES && clash != i {
        leases[clash] := leases[clash].(inUse := false);
        if leases[clash].savedIp != 0 {
          MarkDirty(now);
        }
      }
      assert State() == ClearClash(EntryFor(old(State()), now, mac).st, i, ip, now);
      leases[i] := leases[i].(
        ip := ip, expiresUs := now + holdS * US_PER_S, lastSeenSeq := bootSeq, lastSeenUs := now);
      if persist && leases[i].savedIp != leases[i].ip {
        MarkDirty(now);
      }
      return true;
    }

    // ---- messages and pushes from the client tracker ----

    method HandleMessage(p: Packet, onWire: bool, leaseS: nat, now: int) returns (reply: Reply)
      requires Valid()
      modifies this, leases
      ensures var m := ParsePacket(p, onWire);
              Handled(reply, State()) ==
              if m.None? then Handled(Silent, old(State()))
              else Handle(cfg, old(State()), now, leaseS, m.value)
      ensures bootSeq == old(bootSeq)
    {
      var m := ParsePacket(p, onWire);
      if m.None? {
        return Silent;
      }
      match m.value
      case Discover(mac, requested, wired) =>
        var ip := SelectAddress(mac, requested, wired, now);
        if ip == 0 {
          return Silent;
        }
        var _ := CommitLease(mac, ip, OFFER_HOLD_S, false, now);
        return Offer(ip, leaseS);
      case Request(mac, requested, serverId, wired) =>
        if serverId != 0 && serverId != cfg.serverIp {
          var i := FindSlot(ByMac(mac));
          if i < MAX_LEASES && leases[i].expiresUs != 0 {
            leases[i] := leases[i].(inUse := false);
          }
          return Silent;
        }
        var ip := SelectAddress(mac, requested, wired, now);
        if ip == 0 || (requested != 0 && requested != ip) {
          return Nak;
        }
        var _ := CommitLease(mac, ip, leaseS, true, now);
        return Ack(ip, leaseS);
      case Decline(mac, requested) =>
        TakeDecline(mac, requested, now);
        return Silent;
      case Release(mac) =>
        var i := FindSlot(ByMac(mac));
        if i < MAX_LEASES {
          leases[i] := leases[i].(expiresUs := 0);
          if bootSeq > 0 {
            leases[i] := leases[i].(lastSeenSeq := bootSeq - 1);
          }
        }
        return Silent;
      case Inform(_, ciaddr) =>
        return if ciaddr != 0 then Ack(0, 0) else Silent;
      case Other =>
        return Silent;
    }

    method TakeDecline(mac: Mac, requested: u32, now: int)
      requires Valid()
      modifies this`declined, this`dirty, this`dirtySinceUs, leases
      ensures State() == DeclineStep(old(State()), now, mac, requested)
    {
      var i := FindSlot(ByMac(mac));
      var bad := if i < MAX_LEASES then leases[i].ip else requested;
      if bad != 0 && bad !in declined && |declined| < MAX_DECLINED {
        declined := declined + [bad];
      }
      if i < MAX_LEASES {
        leases[i] := leases[i].(inUse := false);
        if leases[i].savedIp != 0 {
          MarkDirty(now);
        }
      }
    }

    method NoteObservedIp(mac: Mac, ip: u32, now: int)
      requires Valid()
      modifies this`dirty, this`dirtySinceUs, leases
      ensures State() == ObserveStep(cfg, old(State()), now, mac, ip)
    {
      if !OnBridge(cfg, ip) {
        return;
      }
      var i := FindOrTake(mac, now);
      if i == MAX_LEASES {
        return;
      }
      var want := if ip == leases[i].ip then 0 else ip;
      if leases[i].observedIp != want {
        leases[i] := leases[i].(observedIp := want);
      }
      leases[i] := leases[i].(lastSeenSeq := bootSeq, lastSeenUs := now);
      if leases[i].savedObservedIp != Persisted(leases[i]) {
        MarkDirty(now);
      }
    }

    method SetQuarantined(macs: seq<Mac>, now: int)
      requires Valid()
      modifies this`dirty, this`dirtySinceUs, leases
      ensures State() == QuarantineStep(old(State()), now, macs)
    {
      var any := false;
      for i := 0 to MAX_LEASES
        invariant forall k | 0 <= k < i :: leases[k] == Flagged(old(leases[k]), macs)
        invariant forall k | i <= k < MAX_LEASES :: leases[k] == old(leases[k])
        invariant any <==> exists k | 0 <= k < i ::
                    leases[k].inUse && leases[k].savedObservedIp != Persisted(leases[k])
        invariant dirty == (old(dirty) || any)
        invariant dirtySinceUs == if any && !old(dirty) then now else old(dirtySinceUs)
      {
        if !leases[i].inUse {
          leases[i] := leases[i].(quarantined := false);
          continue;
        }
        leases[i] := leases[i].(quarantined := leases[i].mac in macs);
        if leases[i].savedObservedIp != Persisted(leases[i]) {
          MarkDirty(now);
          any := true;
        }
      }
      assert leases[..] == QuarantineStep(old(State()), now, macs).leases;
    }

    /** A snapshot of the table, one entry per client that has an address. */
    method GetLeases(now: int) returns (infos: seq<LeaseInfo>)
      requires Valid()
      ensures infos == Report(State(), now, MAX_LEASES)
    {
      infos := [];
      for i := 0 to MAX_LEASES
        invariant infos == Report(State(), now, i)
      {
        var e := leases[i];
        if !e.inUse || (e.ip == 0 && e.observedIp == 0) {
          continue;
        }
        infos := infos + [InfoOf(e, bootSeq, now)];
      }
    }
  }
}

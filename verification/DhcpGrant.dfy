/** What the address choice and the recording of a grant guarantee. */
module DhcpGrant {
  import opened Bytes
  import opened DhcpTable

  /** One of steps 1 to 3 answers the request, without reclaiming anything. */
  predicate Direct(cfg: Config, st: Server, now: int, mac: Mac, requested: u32, onWire: bool)
    requires cfg.Ok()
  {
    var mine := Find(st.leases, ByMac(mac));
    var r := cfg.Served(onWire);
    || KeepsOwn(st, mine, r, now)
    || MayTake(st, requested, mine, r, now)
    || FirstUnclaimed(cfg, st, r.start, r.end) != 0
  }

  predicate HasVictim(cfg: Config, st: Server, now: int, onWire: bool) {
    PickVictim(st, AddressIn(cfg.Served(onWire)), now) < |st.leases|
  }

  /** The wired range could give nothing at all, so the general pool was asked. */
  predicate FallsBack(cfg: Config, st: Server, now: int, mac: Mac, requested: u32, onWire: bool)
    requires cfg.Ok()
  {
    && onWire && cfg.wired.start != 0
    && !Direct(cfg, st, now, mac, requested, true)
    && !HasVictim(cfg, st, now, true)
  }

  /** The port whose range the grant finally came from. */
  function GrantedFrom(cfg: Config, st: Server, now: int, mac: Mac, requested: u32, onWire: bool): bool
    requires cfg.Ok()
  {
    onWire && !FallsBack(cfg, st, now, mac, requested, onWire)
  }

  lemma SelectOnce(cfg: Config, st: Server, now: int, mac: Mac, requested: u32, onWire: bool)
    requires cfg.Ok()
    ensures FallsBack(cfg, st, now, mac, requested, onWire) ==>
              Select(cfg, st, now, mac, requested, onWire) == Select(cfg, st, now, mac, requested, false)
  {
  }

  /** A grant is in the range served and was not declined. A request over the
      air is never answered from the wired range. */
  lemma GrantInRange(cfg: Config, st: Server, now: int, mac: Mac, requested: u32, onWire: bool)
    requires cfg.Ok()
    ensures var ip := Select(cfg, st, now, mac, requested, onWire).ip;
            ip != 0 ==>
              && cfg.Served(GrantedFrom(cfg, st, now, mac, requested, onWire)).Has(ip)
              && ip !in st.declined
              && (!onWire ==> !cfg.wired.Has(ip))
    decreases onWire
  {
    if FallsBack(cfg, st, now, mac, requested, onWire) {
      GrantInRange(cfg, st, now, mac, requested, false);
      SelectOnce(cfg, st, now, mac, requested, onWire);
    } else if !Direct(cfg, st, now, mac, requested, onWire) {
      VictimOrder(st, AddressIn(cfg.Served(onWire)), now);
    }
  }

  /** Steps 1 to 3 change nothing and grant an address that no other
      unquarantined entry is seen on or holds an unexpired lease for. */
  lemma DirectGrantIsFree(cfg: Config, st: Server, now: int, mac: Mac, requested: u32, onWire: bool)
    requires cfg.Ok()
    requires Direct(cfg, st, now, mac, requested, onWire)
    ensures var g := Select(cfg, st, now, mac, requested, onWire);
            && g.ip != 0
            && g.st == st
            && forall k | 0 <= k < |st.leases| && st.leases[k].inUse && !st.leases[k].quarantined
                          && st.leases[k].mac != mac ::
                 && st.leases[k].observedIp != g.ip
                 && (st.leases[k].ip == g.ip ==> st.leases[k].expiresUs < now)
  {
    var g := Select(cfg, st, now, mac, requested, onWire);
    var mine := Find(st.leases, ByMac(mac));
    forall k | 0 <= k < |st.leases| && st.leases[k].inUse && !st.leases[k].quarantined
               && st.leases[k].mac != mac
      ensures !Claims(st.leases[k], g.ip, now)
    {
      assert k != mine;
      if !KeepsOwn(st, mine, cfg.Served(onWire), now)
         && !MayTake(st, requested, mine, cfg.Served(onWire), now) {
        assert !ByAnyIp(g.ip).Matches(st.leases[k]);
      }
    }
  }

  /** The entry given up: never one heard from this boot; a lapsed plain lease
      while there is one, else a self-addressed entry; the oldest of its kind in
      (generation, time) order. */
  lemma VictimOrder(st: Server, need: Need, now: int)
    ensures var v := PickVictim(st, need, now);
            v == |st.leases| <==>
              forall k, self | 0 <= k < |st.leases| :: !Eligible(st.leases[k], self, need, st, now)
    ensures var v := PickVictim(st, need, now);
            v < |st.leases| ==>
              var self := st.leases[v].observedIp != 0;
              && st.leases[v].inUse
              && st.leases[v].lastSeenSeq < st.bootSeq
              && Eligible(st.leases[v], self, need, st, now)
              && (self ==> forall k | 0 <= k < |st.leases| ::
                             !Eligible(st.leases[k], false, need, st, now))
              && forall k | 0 <= k < |st.leases| && Eligible(st.leases[k], self, need, st, now) ::
                   !Older(st.leases[k], st.leases[v])
  {
  }

  /** Step 4 frees exactly the address it grants, off the victim. */
  lemma ReclaimedGrant(cfg: Config, st: Server, now: int, mac: Mac, requested: u32, onWire: bool)
    requires cfg.Ok()
    requires !Direct(cfg, st, now, mac, requested, onWire) && HasVictim(cfg, st, now, onWire)
    ensures var g := Select(cfg, st, now, mac, requested, onWire);
            var v := PickVictim(st, AddressIn(cfg.Served(onWire)), now);
            && g.ip != 0
            && (g.ip == st.leases[v].ip || g.ip == st.leases[v].observedIp)
            && g.st.leases == st.leases[v := st.leases[v].(inUse := false)]
  {
    VictimOrder(st, AddressIn(cfg.Served(onWire)), now);
  }

  /** The server goes without an answer exactly when every range it may use has
      no standing reservation, no takeable request, no unclaimed address and
      nobody to reclaim from. */
  lemma EmptyHanded(cfg: Config, st: Server, now: int, mac: Mac, requested: u32, onWire: bool)
    requires cfg.Ok()
    ensures Select(cfg, st, now, mac, requested, onWire).ip == 0 <==>
              && !Direct(cfg, st, now, mac, requested, onWire) && !HasVictim(cfg, st, now, onWire)
              && !Direct(cfg, st, now, mac, requested, false) && !HasVictim(cfg, st, now, false)
    decreases onWire
  {
    if Direct(cfg, st, now, mac, requested, onWire) {
      DirectGrantIsFree(cfg, st, now, mac, requested, onWire);
    } else if HasVictim(cfg, st, now, onWire) {
      ReclaimedGrant(cfg, st, now, mac, requested, onWire);
    } else if onWire {
      EmptyHanded(cfg, st, now, mac, requested, false);
    }
  }

  /** While the range served holds an address that is nobody's, is not declined
      and is not the bridge's own, the client gets one. */
  lemma GrantComplete(cfg: Config, st: Server, now: int, mac: Mac, requested: u32, onWire: bool, x: u32)
    requires cfg.Ok()
    requires cfg.Served(onWire).Has(x) && x != cfg.serverIp && x !in st.declined
    requires forall k | 0 <= k < |st.leases| && st.leases[k].inUse && !st.leases[k].quarantined ::
               st.leases[k].ip != x && st.leases[k].observedIp != x
    ensures Direct(cfg, st, now, mac, requested, onWire)
    ensures Select(cfg, st, now, mac, requested, onWire).ip != 0
  {
    assert Unclaimed(cfg, st, x);
    DirectGrantIsFree(cfg, st, now, mac, requested, onWire);
  }

  predicate Grants(cfg: Config, st: Server, now: int, mac: Mac, requested: u32, onWire: bool, ip: u32)
    requires cfg.Ok()
  {
    Select(cfg, st, now, mac, requested, onWire).ip == ip
  }

  /** The bridge's own address can be handed out if and only if the general pool
      covers it: step 3 skips it, but steps 1, 2 and 4 do not look. */
  lemma OwnAddressGranted(cfg: Config)
    requires cfg.Ok()
    ensures (exists st: Server, now, mac, requested, onWire ::
               |st.leases| == MAX_LEASES && Grants(cfg, st, now, mac, requested, onWire, cfg.serverIp))
            <==> cfg.pool.Has(cfg.serverIp)
  {
    forall st: Server, now, mac, requested, onWire
      ensures Grants(cfg, st, now, mac, requested, onWire, cfg.serverIp) ==> cfg.pool.Has(cfg.serverIp)
    {
      GrantInRange(cfg, st, now, mac, requested, onWire);
    }
    if cfg.pool.Has(cfg.serverIp) {
      var st := Server(seq(MAX_LEASES, _ => ZERO_LEASE), [], 1, false, 0);
      assert forall k | 0 <= k < MAX_LEASES :: st.leases[k] == ZERO_LEASE;
      FindIs(st.leases, ByMac(NO_MAC), MAX_LEASES);
      assert MayTake(st, cfg.serverIp, MAX_LEASES, cfg.pool, 0);
      assert Grants(cfg, st, 0, NO_MAC, cfg.serverIp, false, cfg.serverIp);
    }
  }

  // ---- the table invariant ----

  /** In-use entries have pairwise distinct clients and leased addresses. */
  ghost predicate Distinct(ls: seq<Lease>) {
    forall i, j | 0 <= i < j < |ls| && ls[i].inUse && ls[j].inUse ::
      ls[i].mac != ls[j].mac && (ls[i].ip != 0 ==> ls[i].ip != ls[j].ip)
  }

  lemma DropKeepsDistinct(ls: seq<Lease>, i: nat)
    requires i < |ls| && Distinct(ls)
    ensures Distinct(ls[i := ls[i].(inUse := false)])
  {
  }

  lemma SelectKeepsDistinct(cfg: Config, st: Server, now: int, mac: Mac, requested: u32, onWire: bool)
    requires cfg.Ok() && Distinct(st.leases)
    ensures var r := Select(cfg, st, now, mac, requested, onWire).st;
            && Distinct(r.leases) && |r.leases| == |st.leases|
            && r.declined == st.declined && r.bootSeq == st.bootSeq
    decreases onWire
  {
    if Direct(cfg, st, now, mac, requested, onWire) {
      DirectGrantIsFree(cfg, st, now, mac, requested, onWire);
    } else if HasVictim(cfg, st, now, onWire) {
      ReclaimedGrant(cfg, st, now, mac, requested, onWire);
      DropKeepsDistinct(st.leases, PickVictim(st, AddressIn(cfg.Served(onWire)), now));
    } else if onWire {
      SelectKeepsDistinct(cfg, st, now, mac, requested, false);
    }
  }

  /** The entry found or claimed for a client is in use, is the client's and is
      its only one. Every other entry is untouched, or was the one reclaimed. */
  lemma EntryForKeepsDistinct(st: Server, now: int, mac: Mac)
    requires Distinct(st.leases)
    ensures var r := EntryFor(st, now, mac);
            && Distinct(r.st.leases) && r.st.declined == st.declined && r.st.bootSeq == st.bootSeq
            && (r.index < |st.leases| ==>
                  && r.st.leases[r.index].inUse && r.st.leases[r.index].mac == mac
                  && forall k | 0 <= k < |st.leases| && k != r.index :: r.st.leases[k] == st.leases[k])
  {
    var mine := Find(st.leases, ByMac(mac));
    if mine == |st.leases| {
      forall k | 0 <= k < |st.leases| && st.leases[k].inUse
        ensures st.leases[k].mac != mac
      {
        assert !ByMac(mac).Matches(st.leases[k]);
      }
    }
  }

  lemma ClearEffect(st: Server, i: nat, ip: u32, now: int)
    requires Distinct(st.leases) && ip != 0 && i < |st.leases|
    ensures var r := ClearClash(st, i, ip, now);
            && r.declined == st.declined && r.bootSeq == st.bootSeq && r.leases[i] == st.leases[i]
            && forall k | 0 <= k < |st.leases| && k != i ::
                 if st.leases[k].inUse && st.leases[k].ip == ip
                 then r.leases[k] == st.leases[k].(inUse := false)
                 else r.leases[k] == st.leases[k]
  {
    var clash := Find(st.leases, ByIp(ip));
    forall k | 0 <= k < |st.leases| && k != i && st.leases[k].inUse && st.leases[k].ip == ip
      ensures k == clash || clash == i
    {
      assert ByIp(ip).Matches(st.leases[k]);
    }
  }

  /** A grant leaves its client holding the address, alone. Every other entry is
      untouched, unless it was the previous holder, which is cleared. */
  lemma CommitEffect(st: Server, now: int, mac: Mac, ip: u32, holdS: nat, persist: bool)
    requires Distinct(st.leases) && ip != 0
    ensures var r := Commit(st, now, mac, ip, holdS, persist);
            var i := EntryFor(st, now, mac).index;
            && r.declined == st.declined && r.bootSeq == st.bootSeq
            && (i == |st.leases| ==> r == st)
            && (i < |st.leases| ==>
                  && r.leases[i].inUse && r.leases[i].mac == mac && r.leases[i].ip == ip
                  && r.leases[i].observedIp == EntryFor(st, now, mac).st.leases[i].observedIp
                  && r.leases[i].quarantined == EntryFor(st, now, mac).st.leases[i].quarantined
                  && r.leases[i].lastSeenSeq == st.bootSeq
                  && r.leases[i].expiresUs == now + holdS * US_PER_S
                  && forall k | 0 <= k < |st.leases| && k != i ::
                       if st.leases[k].inUse && st.leases[k].ip == ip
                       then r.leases[k] == st.leases[k].(inUse := false)
                       else r.leases[k] == st.leases[k])
  {
    EntryForKeepsDistinct(st, now, mac);
    var s := EntryFor(st, now, mac);
    if s.index < |st.leases| {
      ClearEffect(s.st, s.index, ip, now);
    }
  }

  lemma SettledIsDistinct(a: seq<Lease>, b: seq<Lease>, i: nat)
    requires Distinct(a) && |a| == |b| && i < |a|
    requires a[i].inUse && b[i].inUse && b[i].mac == a[i].mac
    requires forall k | 0 <= k < |a| && k != i && b[k].inUse :: b[k] == a[k] && a[k].ip != b[i].ip
    ensures Distinct(b)
  {
  }

  lemma CommitKeepsDistinct(st: Server, now: int, mac: Mac, ip: u32, holdS: nat, persist: bool)
    requires Distinct(st.leases) && ip != 0
    ensures Distinct(Commit(st, now, mac, ip, holdS, persist).leases)
  {
    var s := EntryFor(st, now, mac);
    EntryForKeepsDistinct(st, now, mac);
    CommitEffect(st, now, mac, ip, holdS, persist);
    if s.index < |st.leases| {
      SettledIsDistinct(s.st.leases, Commit(st, now, mac, ip, holdS, persist).leases, s.index);
    }
  }
}

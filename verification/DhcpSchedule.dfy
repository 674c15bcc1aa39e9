/** When the table asks to be saved, and what flash holds while it does not. */
module DhcpSchedule {
  import opened Bytes
  import opened DhcpTable
  import opened DhcpGrant
  import opened DhcpFlash
  import opened DhcpEvents
  import opened DhcpReservation

  // ---- nobody whom flash knows is dropped unnoticed ----

  /** Flash has something to restore for this client. */
  predicate Known(e: Lease) {
    e.inUse && (e.savedIp != 0 || e.savedObservedIp != 0)
  }

  /** Slot `k` no longer has the client flash knows it by, and no save is due. */
  ghost predicate Lost(a: Server, b: Server, k: nat)
    requires k < |a.leases| == |b.leases|
  {
    var was, e := a.leases[k], b.leases[k];
    Known(was) && !b.dirty &&
    !(e.inUse && e.mac == was.mac && e.savedIp == was.savedIp && e.savedObservedIp == was.savedObservedIp)
  }

  /** Nobody is lost; and when a save was due already, since when does not move. */
  ghost predicate DropsNoticed(a: Server, b: Server) {
    && |a.leases| == |b.leases|
    && (a.dirty ==> b.dirty && b.dirtySinceUs == a.dirtySinceUs)
    && forall k | 0 <= k < |a.leases| :: !Lost(a, b, k)
  }

  /** Or nobody who has a lease in flash. */
  ghost predicate LeasesNoticed(a: Server, b: Server) {
    && |a.leases| == |b.leases|
    && (a.dirty ==> b.dirty && b.dirtySinceUs == a.dirtySinceUs)
    && forall k | 0 <= k < |a.leases| && Lost(a, b, k) :: a.leases[k].savedIp == 0
  }

  lemma NoticesJoin(a: Server, b: Server, c: Server)
    requires DropsNoticed(a, b) && LeasesNoticed(b, c)
    ensures LeasesNoticed(a, c)
    ensures DropsNoticed(b, c) ==> DropsNoticed(a, c)
  {
    forall k | 0 <= k < |a.leases| && Lost(a, c, k)
      ensures Lost(b, c, k) && b.leases[k].savedIp == a.leases[k].savedIp
    {
      assert !Lost(a, b, k);
    }
  }

  lemma SelectNotices(cfg: Config, st: Server, now: int, mac: Mac, requested: u32, onWire: bool)
    requires cfg.Ok()
    ensures DropsNoticed(st, Select(cfg, st, now, mac, requested, onWire).st)
    decreases onWire
  {
    if Direct(cfg, st, now, mac, requested, onWire) {
      DirectGrantIsFree(cfg, st, now, mac, requested, onWire);
    } else if !HasVictim(cfg, st, now, onWire) && onWire {
      SelectNotices(cfg, st, now, mac, requested, false);
    }
  }

  lemma EntryForNotices(st: Server, now: int, mac: Mac)
    ensures DropsNoticed(st, EntryFor(st, now, mac).st)
  {
  }

  /** Recording this grant clears a holder that flash knows by an address of its own
      alone, and nothing else about it asks for a save. */
  predicate GrantLoses(st: Server, now: int, mac: Mac, ip: u32, persist: bool) {
    var s := EntryFor(st, now, mac);
    var clash := Find(s.st.leases, ByIp(ip));
    && s.index < |st.leases| && clash < |st.leases| && clash != s.index
    && s.st.leases[clash].savedIp == 0 && s.st.leases[clash].savedObservedIp != 0
    && !s.st.dirty && !(persist && s.st.leases[s.index].savedIp != ip)
  }

  lemma SettleNotices(b: Server, i: nat, now: int, mac: Mac, ip: u32, holdS: nat, persist: bool)
    requires i < |b.leases| && b.leases[i].inUse && b.leases[i].mac == mac
    requires EntryFor(b, now, mac) == Slot(i, b)
    ensures var r := Commit(b, now, mac, ip, holdS, persist);
            && LeasesNoticed(b, r)
            && (DropsNoticed(b, r) <==> !GrantLoses(b, now, mac, ip, persist))
  {
    var r, clash := Commit(b, now, mac, ip, holdS, persist), Find(b.leases, ByIp(ip));
    assert forall k | 0 <= k < |b.leases| && k != clash :: !Lost(b, r, k);
    if GrantLoses(b, now, mac, ip, persist) {
      assert Lost(b, r, clash);
    }
  }

  /** A client reclaimed to make room is never lost, and the previous holder of the
      address exactly as said above. */
  lemma CommitNotices(st: Server, now: int, mac: Mac, ip: u32, holdS: nat, persist: bool)
    requires Distinct(st.leases) && ip != 0
    ensures var r := Commit(st, now, mac, ip, holdS, persist);
            && LeasesNoticed(st, r)
            && (DropsNoticed(st, r) <==> !GrantLoses(st, now, mac, ip, persist))
  {
    var s := EntryFor(st, now, mac);
    var r := Commit(st, now, mac, ip, holdS, persist);
    if s.index < |st.leases| {
      EntryForNotices(st, now, mac);
      EntryForKeepsDistinct(st, now, mac);
      FoundAgain(st, now, mac);
      SettleNotices(s.st, s.index, now, mac, ip, holdS, persist);
      NoticesJoin(st, s.st, r);
      if GrantLoses(st, now, mac, ip, persist) {
        assert Lost(st, r, Find(s.st.leases, ByIp(ip)));
      }
    }
  }

  /** An offer lapsed while its client stayed on the address flash knows it by; another
      client is offered the address, and the first is lost. */
  lemma PreviousHolderLost(mac: Mac, other: Mac, ip: u32, seen: u32, now: int)
    requires mac != other && ip != 0 && seen != 0
    ensures var e := ZERO_LEASE.(inUse := true, mac := mac, ip := ip, observedIp := seen, savedObservedIp := seen);
            var st := EMPTY.(leases := EMPTY.leases[0 := e]);
            GrantLoses(st, now, other, ip, false) && Lost(st, Commit(st, now, other, ip, OFFER_HOLD_S, false), 0)
  {
    var e := ZERO_LEASE.(inUse := true, mac := mac, ip := ip, observedIp := seen, savedObservedIp := seen);
    var st := EMPTY.(leases := EMPTY.leases[0 := e]);
    FindIs(st.leases, ByMac(other), MAX_LEASES);
    FindIs(st.leases, Free, 1);
    FindIs(EntryFor(st, now, other).st.leases, ByIp(ip), 0);
  }

  lemma FoundAgain(st: Server, now: int, mac: Mac)
    requires Distinct(st.leases) && EntryFor(st, now, mac).index < |st.leases|
    ensures var s := EntryFor(st, now, mac); EntryFor(s.st, now, mac) == s
  {
    var s := EntryFor(st, now, mac);
    EntryForKeepsDistinct(st, now, mac);
    forall k | 0 <= k < s.index
      ensures !ByMac(mac).Matches(s.st.leases[k])
    {
    }
    FindIs(s.st.leases, ByMac(mac), s.index);
  }

  lemma LossesJoin(a: Server, b: Server, c: Server)
    requires Carries(a.leases, b.leases) && LeasesNoticed(b, c)
    ensures DropsNoticed(a, c) ==> DropsNoticed(b, c)
  {
    assert forall k | 0 <= k < |b.leases| && Lost(b, c, k) :: Lost(a, c, k);
  }

  lemma GrantNotices(cfg: Config, st: Server, now: int, mac: Mac, requested: u32, onWire: bool, holdS: nat, persist: bool)
    requires cfg.Ok() && Distinct(st.leases)
    ensures var g := Select(cfg, st, now, mac, requested, onWire);
            && DropsNoticed(st, g.st)
            && (g.ip != 0 ==>
                  var r := Commit(g.st, now, mac, g.ip, holdS, persist);
                  && LeasesNoticed(st, r)
                  && (DropsNoticed(st, r) <==> !GrantLoses(g.st, now, mac, g.ip, persist)))
  {
    var g := Select(cfg, st, now, mac, requested, onWire);
    SelectNotices(cfg, st, now, mac, requested, onWire);
    SelectKeepsDistinct(cfg, st, now, mac, requested, onWire);
    if g.ip != 0 {
      var r := Commit(g.st, now, mac, g.ip, holdS, persist);
      CommitNotices(g.st, now, mac, g.ip, holdS, persist);
      NoticesJoin(st, g.st, r);
      SelectCarries(cfg, st, now, mac, requested, onWire);
      LossesJoin(st, g.st, r);
    }
  }

  /** Declining loses a client that flash knows by an address of its own alone. */
  predicate DeclineLoses(st: Server, mac: Mac) {
    var i := Find(st.leases, ByMac(mac));
    && !st.dirty && i < |st.leases|
    && st.leases[i].savedIp == 0 && st.leases[i].savedObservedIp != 0
  }

  /** A decline: the address is set aside while there is room and the client's entry is
      gone; it is lost exactly as said above. */
  lemma DeclineForgets(st: Server, now: int, mac: Mac, requested: u32)
    requires Distinct(st.leases)
    ensures var r := DeclineStep(st, now, mac, requested);
            var i := Find(st.leases, ByMac(mac));
            var bad := if i < |st.leases| then st.leases[i].ip else requested;
            && LeasesNoticed(st, r)
            && (DropsNoticed(st, r) <==> !DeclineLoses(st, mac))
            && Find(r.leases, ByMac(mac)) == |r.leases|
            && (bad != 0 && |st.declined| < MAX_DECLINED ==> bad in r.declined)
            && (forall x | x in st.declined :: x in r.declined)
  {
    var r, i := DeclineStep(st, now, mac, requested), Find(st.leases, ByMac(mac));
    forall k | 0 <= k < |r.leases|
      ensures !ByMac(mac).Matches(r.leases[k])
    {
      assert !ByMac(mac).Matches(st.leases[k]) || k == i;
    }
    FindIs(r.leases, ByMac(mac), |r.leases|);
    assert DeclineLoses(st, mac) ==> Lost(st, r, i);
  }

  /** The client turned to another server while it was held an address: its entry goes,
      and nothing asks for a save. */
  predicate TurningLoses(st: Server, mac: Mac) {
    var i := Find(st.leases, ByMac(mac));
    !st.dirty && i < |st.leases| && st.leases[i].expiresUs != 0 && Known(st.leases[i])
  }

  lemma ElsewhereNotices(st: Server, mac: Mac)
    ensures DropsNoticed(st, ElsewhereStep(st, mac)) <==> !TurningLoses(st, mac)
  {
    var r, i := ElsewhereStep(st, mac), Find(st.leases, ByMac(mac));
    assert TurningLoses(st, mac) ==> Lost(st, r, i);
  }

  predicate TurnsAway(cfg: Config, ev: Event) {
    ev.Receive? && ev.msg.Request? && ev.msg.serverId != 0 && ev.msg.serverId != cfg.serverIp
  }

  /** The events that lose a client flash knows, each in one branch: recording a grant
      and a decline look at the saved lease alone, and a turn to another server at
      nothing. */
  predicate Loses(cfg: Config, st: Server, now: int, ev: Event)
    requires cfg.Ok()
  {
    && ev.Receive?
    && match ev.msg
       case Discover(c, requested, onWire) =>
         var g := Select(cfg, st, now, c, requested, onWire);
         g.ip != 0 && GrantLoses(g.st, now, c, g.ip, false)
       case Request(c, requested, _, onWire) =>
         if TurnsAway(cfg, ev) then TurningLoses(st, c)
         else
           var g := Select(cfg, st, now, c, requested, onWire);
           g.ip != 0 && (requested == 0 || requested == g.ip) && GrantLoses(g.st, now, c, g.ip, true)
       case Decline(c, _) => DeclineLoses(st, c)
       case _ => false
  }

  lemma RequestNotices(cfg: Config, st: Server, now: int, leaseS: nat, m: Message)
    requires cfg.Ok() && Distinct(st.leases) && m.Request?
    ensures var r := Handle(cfg, st, now, leaseS, m).st;
            && (DropsNoticed(st, r) <==> !Loses(cfg, st, now, Receive(m, leaseS)))
            && (!TurnsAway(cfg, Receive(m, leaseS)) ==> LeasesNoticed(st, r))
  {
    if TurnsAway(cfg, Receive(m, leaseS)) {
      ElsewhereNotices(st, m.mac);
    } else {
      GrantNotices(cfg, st, now, m.mac, m.requested, m.onWire, leaseS, true);
    }
  }

  lemma MessageNotices(cfg: Config, st: Server, now: int, leaseS: nat, m: Message)
    requires cfg.Ok() && Distinct(st.leases)
    ensures var r := Handle(cfg, st, now, leaseS, m).st;
            && (DropsNoticed(st, r) <==> !Loses(cfg, st, now, Receive(m, leaseS)))
            && (!TurnsAway(cfg, Receive(m, leaseS)) ==> LeasesNoticed(st, r))
  {
    match m
    case Discover(c, requested, onWire) =>
      GrantNotices(cfg, st, now, c, requested, onWire, OFFER_HOLD_S, false);
    case Request(_, _, _, _) =>
      RequestNotices(cfg, st, now, leaseS, m);
    case Decline(c, requested) => DeclineForgets(st, now, c, requested);
    case _ =>
  }

  lemma ObserveNotices(cfg: Config, st: Server, now: int, mac: Mac, ip: u32)
    ensures DropsNoticed(st, ObserveStep(cfg, st, now, mac, ip))
  {
    EntryForNotices(st, now, mac);
  }

  // ---- an acknowledged address is in flash, or about to be ----

  ghost predicate HasLease(st: Server, mac: Mac, addr: u32) {
    var i := Find(st.leases, ByMac(mac));
    i < |st.leases| && st.leases[i].ip == addr
  }

  /** The client's lease is the one flash has, or a save is due. */
  ghost predicate LeaseDue(st: Server, mac: Mac, addr: u32) {
    HasLease(st, mac, addr) && (st.dirty || st.leases[Find(st.leases, ByMac(mac))].savedIp == addr)
  }

  /** That is how a recorded acknowledgement leaves the table. */
  lemma AckIsDue(cfg: Config, st: Server, now: int, leaseS: nat, m: Message, addr: u32)
    requires cfg.Ok() && Distinct(st.leases) && m.Request? && !TurnsAway(cfg, Receive(m, leaseS))
    requires Handle(cfg, st, now, leaseS, m).reply == Ack(addr, leaseS)
    requires EntryFor(Select(cfg, st, now, m.mac, m.requested, m.onWire).st, now, m.mac).index < |st.leases|
    ensures LeaseDue(Handle(cfg, st, now, leaseS, m).st, m.mac, addr)
  {
    var g := Select(cfg, st, now, m.mac, m.requested, m.onWire);
    var i := EntryFor(g.st, now, m.mac).index;
    var r := Commit(g.st, now, m.mac, addr, leaseS, true);
    SelectKeepsDistinct(cfg, st, now, m.mac, m.requested, m.onWire);
    CommitEffect(g.st, now, m.mac, addr, leaseS, true);
    CommitKeepsDistinct(g.st, now, m.mac, addr, leaseS, true);
    OnlyEntry(r.leases, m.mac, i);
    AckSchedules(g.st, now, m.mac, addr, leaseS);
  }

  lemma AckSchedules(st: Server, now: int, mac: Mac, ip: u32, holdS: nat)
    requires Distinct(st.leases) && ip != 0
    ensures var r := Commit(st, now, mac, ip, holdS, true);
            var i := EntryFor(st, now, mac).index;
            i < |st.leases| ==> r.dirty || r.leases[i].savedIp == ip
  {
  }

  lemma OnlyEntry(ls: seq<Lease>, mac: Mac, i: nat)
    requires Distinct(ls) && i < |ls| && ByMac(mac).Matches(ls[i])
    ensures Find(ls, ByMac(mac)) == i
  {
    forall k | 0 <= k < i
      ensures !ByMac(mac).Matches(ls[k])
    {
    }
    FindIs(ls, ByMac(mac), i);
  }

  lemma NoticedIsDue(a: Server, b: Server, mac: Mac, addr: u32)
    requires Distinct(b.leases) && LeasesNoticed(a, b) && addr != 0
    requires LeaseDue(a, mac, addr) && HasLease(b, mac, addr)
    ensures LeaseDue(b, mac, addr)
  {
    var i := Find(a.leases, ByMac(mac));
    if !b.dirty {
      OnlyEntry(b.leases, mac, i);
    }
  }

  /** And so it stays, through every event short of a power cut, as long as the client
      has the lease. */
  lemma StepKeepsDue(cfg: Config, sys: System, now: int, ev: Event, mac: Mac, addr: u32)
    requires cfg.Ok() && SystemOk(sys) && addr != 0 && !ev.PowerCycle?
    requires LeaseDue(sys.server, mac, addr) && HasLease(Step(cfg, sys, now, ev).server, mac, addr)
    ensures LeaseDue(Step(cfg, sys, now, ev).server, mac, addr)
  {
    var a, b := sys.server, Step(cfg, sys, now, ev).server;
    StepKeepsOk(cfg, sys, now, ev);
    match ev
    case Receive(m, leaseS) =>
      if TurnsAway(cfg, ev) {
        OtherServerKeepsDue(a, m.mac, mac, addr);
      } else {
        MessageNotices(cfg, a, now, leaseS, m);
        NoticedIsDue(a, b, mac, addr);
      }
    case Observe(c, ip) =>
      ObserveNotices(cfg, a, now, c, ip);
      NoticedIsDue(a, b, mac, addr);
    case Quarantine(macs) => NoticedIsDue(a, b, mac, addr);
    case Save(lands) =>
      if lands {
        SavedIsDue(a, mac, addr);
      }
  }

  lemma OtherServerKeepsDue(a: Server, c: Mac, mac: Mac, addr: u32)
    requires Distinct(a.leases) && LeaseDue(a, mac, addr) && HasLease(ElsewhereStep(a, c), mac, addr)
    ensures LeaseDue(ElsewhereStep(a, c), mac, addr)
  {
    var i, b := Find(a.leases, ByMac(mac)), ElsewhereStep(a, c);
    var j := Find(b.leases, ByMac(mac));
    assert ByMac(mac).Matches(a.leases[j]);
    OnlyEntry(a.leases, mac, j);
  }

  lemma SavedIsDue(st: Server, mac: Mac, addr: u32)
    requires Distinct(st.leases) && HasLease(st, mac, addr)
    ensures LeaseDue(Saved(st), mac, addr)
  {
    var i, r := Find(st.leases, ByMac(mac)), Saved(st);
    forall k | 0 <= k < i
      ensures !ByMac(mac).Matches(r.leases[k])
    {
      assert !ByMac(mac).Matches(st.leases[k]);
    }
    FindIs(r.leases, ByMac(mac), i);
  }

  /** The client has the lease after every event, and no power is lost. */
  ghost predicate HasLeaseThroughout(cfg: Config, sys: System, run: seq<Timed>, mac: Mac, addr: u32)
    requires cfg.Ok() && |sys.server.leases| == MAX_LEASES
    decreases |run|
  {
    && HasLease(sys.server, mac, addr)
    && (run != [] ==>
          && !run[0].ev.PowerCycle?
          && HasLeaseThroughout(cfg, Step(cfg, sys, run[0].now, run[0].ev), run[1..], mac, addr))
  }

  lemma {:induction false} RunKeepsDue(cfg: Config, sys: System, run: seq<Timed>, mac: Mac, addr: u32)
    requires cfg.Ok() && SystemOk(sys) && addr != 0
    requires LeaseDue(sys.server, mac, addr) && HasLeaseThroughout(cfg, sys, run, mac, addr)
    ensures LeaseDue(Run(cfg, sys, run).server, mac, addr)
    decreases |run|
  {
    if run != [] {
      var next := Step(cfg, sys, run[0].now, run[0].ev);
      StepKeepsOk(cfg, sys, run[0].now, run[0].ev);
      StepKeepsDue(cfg, sys, run[0].now, run[0].ev, mac, addr);
      RunKeepsDue(cfg, next, run[1..], mac, addr);
    }
  }

  /** An acknowledged address reaches flash: after any run of events without a power
      cut through which the client keeps the lease, a save is due or flash has it. */
  lemma AcknowledgedReachesFlash(cfg: Config, sys: System, run: seq<Timed>, mac: Mac, addr: u32)
    requires cfg.Ok() && SystemOk(sys) && addr != 0
    requires LeaseDue(sys.server, mac, addr) && HasLeaseThroughout(cfg, sys, run, mac, addr)
    ensures var end := Run(cfg, sys, run);
            end.server.dirty || InFlash(end.flash, mac, addr)
  {
    var end := Run(cfg, sys, run);
    RunKeepsDue(cfg, sys, run, mac, addr);
    RunKeepsOk(cfg, sys, run);
    var i := Find(end.server.leases, ByMac(mac));
    assert SavedAs(end.server.leases[i], FlashRecords(end.flash));
  }

  // ---- what a clean table says about flash ----

  /** While no save is due, every entry's saved claim is the one it would store. */
  ghost predicate ClaimsUpToDate(st: Server) {
    !st.dirty ==>
      forall k | 0 <= k < |st.leases| && st.leases[k].inUse ::
        st.leases[k].savedObservedIp == Persisted(st.leases[k])
  }

  lemma SelectKeepsClaims(cfg: Config, st: Server, now: int, mac: Mac, requested: u32, onWire: bool)
    requires cfg.Ok() && ClaimsUpToDate(st)
    ensures ClaimsUpToDate(Select(cfg, st, now, mac, requested, onWire).st)
    decreases onWire
  {
    if Direct(cfg, st, now, mac, requested, onWire) {
      DirectGrantIsFree(cfg, st, now, mac, requested, onWire);
    } else if !HasVictim(cfg, st, now, onWire) && onWire {
      SelectKeepsClaims(cfg, st, now, mac, requested, false);
    }
  }

  lemma CommitKeepsClaims(st: Server, now: int, mac: Mac, ip: u32, holdS: nat, persist: bool)
    requires ClaimsUpToDate(st)
    ensures ClaimsUpToDate(Commit(st, now, mac, ip, holdS, persist))
  {
  }

  lemma GrantKeepsClaims(cfg: Config, st: Server, now: int, mac: Mac, requested: u32, onWire: bool, holdS: nat, persist: bool)
    requires cfg.Ok() && ClaimsUpToDate(st)
    ensures var g := Select(cfg, st, now, mac, requested, onWire);
            && ClaimsUpToDate(g.st)
            && (g.ip != 0 ==> ClaimsUpToDate(Commit(g.st, now, mac, g.ip, holdS, persist)))
  {
    var g := Select(cfg, st, now, mac, requested, onWire);
    SelectKeepsClaims(cfg, st, now, mac, requested, onWire);
    if g.ip != 0 {
      CommitKeepsClaims(g.st, now, mac, g.ip, holdS, persist);
    }
  }

  lemma MessageKeepsClaims(cfg: Config, st: Server, now: int, leaseS: nat, m: Message)
    requires cfg.Ok() && ClaimsUpToDate(st)
    ensures ClaimsUpToDate(Handle(cfg, st, now, leaseS, m).st)
  {
    match m
    case Discover(c, requested, onWire) =>
      GrantKeepsClaims(cfg, st, now, c, requested, onWire, OFFER_HOLD_S, false);
    case Request(c, requested, serverId, onWire) =>
      if serverId == 0 || serverId == cfg.serverIp {
        GrantKeepsClaims(cfg, st, now, c, requested, onWire, leaseS, true);
      }
    case _ =>
  }

  lemma ObserveKeepsClaims(cfg: Config, st: Server, now: int, mac: Mac, ip: u32)
    requires ClaimsUpToDate(st)
    ensures ClaimsUpToDate(ObserveStep(cfg, st, now, mac, ip))
  {
  }

  lemma ImageKeepsClaims(img: Image, now: int)
    requires |img.records| <= MAX_LEASES
    ensures ClaimsUpToDate(BootImage(img, now))
  {
    var bootSeq := NextGeneration(img.bootSeq);
    var read := Restored(img, bootSeq, |img.records|);
    var kept := DropDisputed(read);
    RestoredSound(img, bootSeq, |img.records|);
    if kept == read {
      forall k | 0 <= k < |read|
        ensures read[k].savedObservedIp == Persisted(read[k])
      {
        assert read[k] in read;
      }
    }
  }

  lemma BootKeepsClaims(flash: Option<seq<byte>>, now: int)
    ensures ClaimsUpToDate(Boot(flash, now))
  {
    if flash.Some? && Parse(flash.value).Some? {
      ImageKeepsClaims(Parse(flash.value).value, now);
    }
  }

  lemma StepKeepsClaims(cfg: Config, sys: System, now: int, ev: Event)
    requires cfg.Ok() && |sys.server.leases| == MAX_LEASES && ClaimsUpToDate(sys.server)
    ensures ClaimsUpToDate(Step(cfg, sys, now, ev).server)
  {
    match ev
    case Receive(m, leaseS) => MessageKeepsClaims(cfg, sys.server, now, leaseS, m);
    case Observe(mac, ip) => ObserveKeepsClaims(cfg, sys.server, now, mac, ip);
    case Quarantine(macs) =>
    case Save(lands) =>
    case PowerCycle => BootKeepsClaims(sys.flash, now);
  }

  lemma {:induction false} RunKeepsClaims(cfg: Config, sys: System, run: seq<Timed>)
    requires cfg.Ok() && |sys.server.leases| == MAX_LEASES && ClaimsUpToDate(sys.server)
    ensures ClaimsUpToDate(Run(cfg, sys, run).server)
    decreases |run|
  {
    if run != [] {
      StepKeepsClaims(cfg, sys, run[0].now, run[0].ev);
      RunKeepsClaims(cfg, Step(cfg, sys, run[0].now, run[0].ev), run[1..]);
    }
  }

  /** From power-on over any sound flash and along any run: while no save is due, flash
      has every client's claim to an address of its own, and, for a client that is cut
      off and whose entry names a saved lease, a record without a claim. */
  lemma CleanMeansClaimsInFlash(cfg: Config, flash: Option<seq<byte>>, t0: int, run: seq<Timed>, k: nat)
    requires cfg.Ok() && DistinctRecords(FlashRecords(flash)) && k < MAX_LEASES
    requires var end := Run(cfg, System(Boot(flash, t0), flash), run);
             !end.server.dirty && end.server.leases[k].inUse
    ensures var end := Run(cfg, System(Boot(flash, t0), flash), run);
            var e := end.server.leases[k];
            && (Persisted(e) != 0 ==>
                  exists n | 0 <= n < |FlashRecords(end.flash)| ::
                    FlashRecords(end.flash)[n].mac == e.mac && FlashRecords(end.flash)[n].observedIp == e.observedIp)
            && (e.quarantined && e.savedIp != 0 ==>
                  exists n | 0 <= n < |FlashRecords(end.flash)| ::
                    FlashRecords(end.flash)[n].mac == e.mac && FlashRecords(end.flash)[n].observedIp == 0)
  {
    var sys := System(Boot(flash, t0), flash);
    var end := Run(cfg, sys, run);
    PowerOnIsOk(flash, t0);
    RunKeepsOk(cfg, sys, run);
    BootKeepsClaims(flash, t0);
    RunKeepsClaims(cfg, sys, run);
    assert SavedAs(end.server.leases[k], FlashRecords(end.flash));
  }
}

/** When a table with nothing to save and its flash agree about every client. */
module DhcpMirror {
  import opened Bytes
  import opened DhcpTable
  import opened DhcpGrant
  import opened DhcpFlash
  import opened DhcpEvents
  import opened DhcpSchedule

  predicate Blank(r: Record) {
    r.ip == 0 && r.observedIp == 0
  }

  /** A client of the table is known to be in flash with exactly this record. */
  ghost predicate Held(ls: seq<Lease>, r: Record) {
    exists k | 0 <= k < |ls| ::
      ls[k].inUse && ls[k].mac == r.mac && ls[k].savedIp == r.ip && ls[k].savedObservedIp == r.observedIp
  }

  /** While no save is due, nothing in flash is about a client the table has lost. */
  ghost predicate Mirrored(st: Server, rs: seq<Record>) {
    !st.dirty ==> forall n | 0 <= n < |rs| && !Blank(rs[n]) :: Held(st.leases, rs[n])
  }

  lemma NoticedKeepsMirror(a: Server, b: Server, rs: seq<Record>)
    requires Mirrored(a, rs) && DropsNoticed(a, b)
    ensures Mirrored(b, rs)
  {
    if !b.dirty {
      forall n | 0 <= n < |rs| && !Blank(rs[n])
        ensures Held(b.leases, rs[n])
      {
        var k :| 0 <= k < |a.leases| && a.leases[k].inUse && a.leases[k].mac == rs[n].mac
                 && a.leases[k].savedIp == rs[n].ip && a.leases[k].savedObservedIp == rs[n].observedIp;
        assert !Lost(a, b, k);
      }
    }
  }

  lemma LossBreaksMirror(a: Server, b: Server, rs: seq<Record>, k: nat)
    requires |a.leases| == |b.leases| && k < |a.leases| && Lost(a, b, k)
    requires Distinct(a.leases) && Backed(a.leases, rs) && Carries(a.leases, b.leases)
    ensures !Mirrored(b, rs)
  {
    var e := a.leases[k];
    assert SavedAs(e, rs);
    var n :| 0 <= n < |rs| && rs[n].mac == e.mac && rs[n].ip == e.savedIp && rs[n].observedIp == e.savedObservedIp;
    assert forall j | 0 <= j < |b.leases| && b.leases[j].inUse && b.leases[j].mac == e.mac
                      && (b.leases[j].savedIp != 0 || b.leases[j].savedObservedIp != 0) :: j == k;
  }

  lemma MessageAndMirror(cfg: Config, sys: System, now: int, leaseS: nat, m: Message)
    requires cfg.Ok() && SystemOk(sys) && Mirrored(sys.server, FlashRecords(sys.flash))
    ensures Mirrored(Handle(cfg, sys.server, now, leaseS, m).st, FlashRecords(sys.flash)) <==>
            !Loses(cfg, sys.server, now, Receive(m, leaseS))
  {
    var a, b, rs := sys.server, Handle(cfg, sys.server, now, leaseS, m).st, FlashRecords(sys.flash);
    HandleKeeps(cfg, a, now, leaseS, m);
    MessageNotices(cfg, a, now, leaseS, m);
    if DropsNoticed(a, b) {
      NoticedKeepsMirror(a, b, rs);
    } else {
      var k :| 0 <= k < |a.leases| && Lost(a, b, k);
      LossBreaksMirror(a, b, rs, k);
    }
  }

  lemma SaveMirrors(st: Server)
    requires |st.leases| == MAX_LEASES
    ensures Mirrored(Saved(st), Records(st.leases, MAX_LEASES))
  {
    var rs := Records(st.leases, MAX_LEASES);
    RecordsSound(st.leases, MAX_LEASES);
    forall n | 0 <= n < |rs|
      ensures Held(Saved(st).leases, rs[n])
    {
      assert rs[n] in rs && FromSlot(st.leases, MAX_LEASES, rs[n]);
      var i :| 0 <= i < MAX_LEASES && Storable(st.leases[i]) && RecordOf(st.leases[i]) == rs[n];
      assert Saved(st).leases[i] == MarkSaved(st.leases[i]);
    }
  }

  lemma {:induction false} AllComeBack(img: Image, bootSeq: u32, n: nat)
    requires n <= |img.records| && |Restored(img, bootSeq, n)| == n
    ensures forall i | 0 <= i < n :: Restored(img, bootSeq, n)[i] == LeaseOf(img.records[i])
  {
    if n > 0 {
      AllComeBack(img, bootSeq, n - 1);
    }
  }

  lemma BootMirrors(flash: Option<seq<byte>>, now: int)
    ensures Mirrored(Boot(flash, now), FlashRecords(flash))
  {
    var st, rs := Boot(flash, now), FlashRecords(flash);
    if rs != [] && !st.dirty {
      var img := Parse(flash.value).value;
      var bootSeq := NextGeneration(img.bootSeq);
      AllComeBack(img, bootSeq, |rs|);
      forall n | 0 <= n < |rs|
        ensures Held(st.leases, rs[n])
      {
        assert st.leases[n] == LeaseOf(rs[n]);
      }
    }
  }

  lemma StepAndMirror(cfg: Config, sys: System, now: int, ev: Event)
    requires cfg.Ok() && SystemOk(sys) && Mirrored(sys.server, FlashRecords(sys.flash))
    ensures var next := Step(cfg, sys, now, ev);
            Mirrored(next.server, FlashRecords(next.flash)) <==> !Loses(cfg, sys.server, now, ev)
  {
    var a, rs := sys.server, FlashRecords(sys.flash);
    match ev
    case Receive(m, leaseS) => MessageAndMirror(cfg, sys, now, leaseS, m);
    case Observe(mac, ip) =>
      ObserveNotices(cfg, a, now, mac, ip);
      NoticedKeepsMirror(a, ObserveStep(cfg, a, now, mac, ip), rs);
    case Quarantine(macs) => NoticedKeepsMirror(a, QuarantineStep(a, now, macs), rs);
    case Save(lands) =>
      SaveKeeps(a);
      SaveMirrors(a);
    case PowerCycle => BootMirrors(sys.flash, now);
  }

  /** No event of the run loses a client. */
  predicate NobodyLost(cfg: Config, sys: System, run: seq<Timed>)
    requires cfg.Ok() && |sys.server.leases| == MAX_LEASES
    decreases |run|
  {
    run != [] ==>
      && !Loses(cfg, sys.server, run[0].now, run[0].ev)
      && NobodyLost(cfg, Step(cfg, sys, run[0].now, run[0].ev), run[1..])
  }

  /** After every event of the run. */
  ghost predicate MirroredThroughout(cfg: Config, sys: System, run: seq<Timed>)
    requires cfg.Ok() && |sys.server.leases| == MAX_LEASES
    decreases |run|
  {
    && Mirrored(sys.server, FlashRecords(sys.flash))
    && (run != [] ==> MirroredThroughout(cfg, Step(cfg, sys, run[0].now, run[0].ev), run[1..]))
  }

  lemma {:induction false} RunAndMirror(cfg: Config, sys: System, run: seq<Timed>)
    requires cfg.Ok() && SystemOk(sys) && Mirrored(sys.server, FlashRecords(sys.flash))
    ensures MirroredThroughout(cfg, sys, run) <==> NobodyLost(cfg, sys, run)
    ensures NobodyLost(cfg, sys, run) ==>
              var end := Run(cfg, sys, run);
              Mirrored(end.server, FlashRecords(end.flash))
    decreases |run|
  {
    if run != [] {
      var next := Step(cfg, sys, run[0].now, run[0].ev);
      StepKeepsOk(cfg, sys, run[0].now, run[0].ev);
      StepAndMirror(cfg, sys, run[0].now, run[0].ev);
      if Mirrored(next.server, FlashRecords(next.flash)) {
        RunAndMirror(cfg, next, run[1..]);
      }
    }
  }

  /** From power-on over any sound flash: all through a run, nothing in flash outlives
      its client in a table with no save due, if and only if no event loses a client. */
  lemma MirroredExactly(cfg: Config, flash: Option<seq<byte>>, t0: int, run: seq<Timed>)
    requires cfg.Ok() && DistinctRecords(FlashRecords(flash))
    ensures var sys := System(Boot(flash, t0), flash);
            MirroredThroughout(cfg, sys, run) <==> NobodyLost(cfg, sys, run)
  {
    PowerOnIsOk(flash, t0);
    BootMirrors(flash, t0);
    RunAndMirror(cfg, System(Boot(flash, t0), flash), run);
  }

  /** Some record says the client was seen on the address. */
  ghost predicate FlashClaims(rs: seq<Record>, mac: Mac, x: u32) {
    exists n | 0 <= n < |rs| :: rs[n].mac == mac && rs[n].observedIp == x
  }

  /** Some entry would have it stored. */
  ghost predicate TableClaims(ls: seq<Lease>, mac: Mac, x: u32) {
    exists k | 0 <= k < |ls| :: ls[k].inUse && ls[k].mac == mac && Persisted(ls[k]) == x
  }

  /** Then the claims in flash are exactly those of the table: none of a client that is
      cut off or gone. */
  lemma CleanFlashAgrees(cfg: Config, flash: Option<seq<byte>>, t0: int, run: seq<Timed>, mac: Mac, x: u32)
    requires cfg.Ok() && DistinctRecords(FlashRecords(flash)) && x != 0
    requires NobodyLost(cfg, System(Boot(flash, t0), flash), run)
    requires !Run(cfg, System(Boot(flash, t0), flash), run).server.dirty
    ensures var end := Run(cfg, System(Boot(flash, t0), flash), run);
            FlashClaims(FlashRecords(end.flash), mac, x) <==> TableClaims(end.server.leases, mac, x)
  {
    var sys := System(Boot(flash, t0), flash);
    var end := Run(cfg, sys, run);
    PowerOnIsOk(flash, t0);
    RunKeepsOk(cfg, sys, run);
    BootKeepsClaims(flash, t0);
    RunKeepsClaims(cfg, sys, run);
    BootMirrors(flash, t0);
    RunAndMirror(cfg, sys, run);
    ClaimsAgree(end, mac, x);
  }

  lemma ClaimsAgree(sys: System, mac: Mac, x: u32)
    requires SystemOk(sys) && ClaimsUpToDate(sys.server) && Mirrored(sys.server, FlashRecords(sys.flash))
    requires !sys.server.dirty && x != 0
    ensures FlashClaims(FlashRecords(sys.flash), mac, x) <==> TableClaims(sys.server.leases, mac, x)
  {
    var ls, rs := sys.server.leases, FlashRecords(sys.flash);
    if FlashClaims(rs, mac, x) {
      var n :| 0 <= n < |rs| && rs[n].mac == mac && rs[n].observedIp == x;
      assert Held(ls, rs[n]);
    }
    if TableClaims(ls, mac, x) {
      var k :| 0 <= k < |ls| && ls[k].inUse && ls[k].mac == mac && Persisted(ls[k]) == x;
      assert SavedAs(ls[k], rs);
    }
  }

  // ---- a claim that outlives a block ----

  /** The table of one client seen on an address of its own. */
  function Met(mac: Mac, seen: u32, t: int): (st: Server)
    ensures |st.leases| == MAX_LEASES
  {
    var e := ZERO_LEASE.(inUse := true, mac := mac, observedIp := seen, lastSeenSeq := 1, lastSeenUs := t);
    EMPTY.(leases := EMPTY.leases[0 := e], dirty := true, dirtySinceUs := t)
  }

  lemma MeetsClient(cfg: Config, mac: Mac, seen: u32, t: int)
    requires OnBridge(cfg, seen)
    ensures ObserveStep(cfg, EMPTY, t, mac, seen) == Met(mac, seen, t)
  {
    FindIs(EMPTY.leases, ByMac(mac), MAX_LEASES);
    FindIs(EMPTY.leases, Free, 0);
  }

  lemma MetIsSaved(mac: Mac, seen: u32, t: int)
    requires seen != 0
    ensures FlashClaims(FlashRecords(Some(TableBlob(Met(mac, seen, t)))), mac, seen)
  {
    var st := Met(mac, seen, t);
    SaveKeeps(st);
    RecordsSound(st.leases, MAX_LEASES);
    assert RecordOf(st.leases[0]) in Records(st.leases, MAX_LEASES);
  }

  /** The claim is the client's again after a boot. */
  ghost predicate ClaimsAgain(st: Server, mac: Mac, seen: u32) {
    exists k | 0 <= k < |st.leases| ::
      st.leases[k].inUse && st.leases[k].mac == mac && st.leases[k].observedIp == seen && !st.leases[k].quarantined
  }

  lemma MetComesBack(mac: Mac, seen: u32, t: int, now: int)
    requires seen != 0
    ensures ClaimsAgain(Boot(Some(TableBlob(Met(mac, seen, t))), now), mac, seen)
  {
    var st := Met(mac, seen, t);
    assert forall j | 1 <= j < MAX_LEASES :: st.leases[j] == ZERO_LEASE;
    assert Distinct(st.leases) && Persisted(st.leases[0]) == seen;
    ObservedSurvives(st, now, 0);
  }

  /** A table with nobody in it offers a newcomer something, and takes it in. */
  lemma TakesNewcomer(cfg: Config, st: Server, now: int, mac: Mac, free: u32)
    requires cfg.Ok() && cfg.pool.Has(free) && free != cfg.serverIp
    requires |st.leases| > 0 && st.declined == [] && forall k | 0 <= k < |st.leases| :: !st.leases[k].inUse
    ensures var s := Slot(0, st.Put(0, ZERO_LEASE.(inUse := true, mac := mac)));
            && EntryFor(st, now, mac) == s
            && exists ip: u32 :: DiscoverStep(cfg, st, now, mac, 0, false) == Grant(ip, Settled(s.st, now, ip))
  {
    FindIs(st.leases, ByMac(mac), |st.leases|);
    FindIs(st.leases, Free, 0);
    FindIs(st.leases, ByAnyIp(free), |st.leases|);
    assert Unclaimed(cfg, st, free);
    var g := Select(cfg, st, now, mac, 0, false);
    assert !KeepsOwn(st, |st.leases|, cfg.pool, now) && !MayTake(st, 0, |st.leases|, cfg.pool, now);
    assert g.ip != 0 && g.st == st;
    var s := EntryFor(st, now, mac);
    FindIs(s.st.leases, ByIp(g.ip), |st.leases|);
    assert DiscoverStep(cfg, st, now, mac, 0, false) == Grant(g.ip, Settled(s.st, now, g.ip));
  }

  /** Slot 0 with an address on offer. */
  function Settled(st: Server, now: int, ip: u32): Server
    requires |st.leases| > 0
  {
    st.Put(0, st.leases[0].(ip := ip, expiresUs := now + OFFER_HOLD_S * US_PER_S,
                            lastSeenSeq := st.bootSeq, lastSeenUs := now))
  }

  /** Saved, and then declining: the table is empty and says nothing about it. */
  lemma DeclinesUnnoticed(mac: Mac, seen: u32, t: int)
    requires seen != 0
    ensures var st := Declined(mac, seen, t);
            && |st.leases| == MAX_LEASES && st.declined == [] && !st.dirty && st.bootSeq == 1
            && forall k | 0 <= k < MAX_LEASES ::
                 !st.leases[k].inUse && st.leases[k].savedObservedIp == if k == 0 then seen else 0
  {
    FindIs(Saved(Met(mac, seen, t)).leases, ByMac(mac), 0);
  }

  /** Back, and cut off: its new entry has nothing in flash, so there is nothing to save. */
  lemma CutOffUnnoticed(cfg: Config, st: Server, mac: Mac, free: u32, t: int)
    requires cfg.Ok() && cfg.pool.Has(free) && free != cfg.serverIp
    requires |st.leases| > 0 && st.declined == [] && !st.dirty
    requires forall k | 0 <= k < |st.leases| :: !st.leases[k].inUse
    ensures var r := QuarantineStep(DiscoverStep(cfg, st, t, mac, 0, false).st, t, [mac]);
            !r.dirty && CutOff(r, mac)
  {
    TakesNewcomer(cfg, st, t, mac, free);
    var d := DiscoverStep(cfg, st, t, mac, 0, false).st;
    var r := QuarantineStep(d, t, [mac]);
    assert d.leases[0].inUse && d.leases[0].mac == mac && d.leases[0].observedIp == d.leases[0].savedObservedIp == 0;
    assert r.leases[0] == Flagged(d.leases[0], [mac]) && r.leases[0].quarantined;
  }

  ghost predicate CutOff(st: Server, mac: Mac) {
    exists k | 0 <= k < |st.leases| ::
      st.leases[k].inUse && st.leases[k].mac == mac && st.leases[k].quarantined
  }

  /** A client seen on an address of its own, saved, declining, back, and cut off. */
  function ClaimRun(mac: Mac, seen: u32, t: int): seq<Timed> {
    [Timed(t, Observe(mac, seen)), Timed(t, Save(true))]
    + [Timed(t, Receive(Decline(mac, 0), 0)), Timed(t, Receive(Discover(mac, 0, false), 0))]
    + [Timed(t, Quarantine([mac]))]
  }

  lemma {:induction false} RunJoins(cfg: Config, sys: System, xs: seq<Timed>, ys: seq<Timed>)
    requires cfg.Ok() && |sys.server.leases| == MAX_LEASES
    ensures Run(cfg, sys, xs + ys) == Run(cfg, Run(cfg, sys, xs), ys)
    decreases |xs|
  {
    if xs == [] {
      assert xs + ys == ys;
    } else {
      assert (xs + ys)[0] == xs[0] && (xs + ys)[1..] == xs[1..] + ys;
      RunJoins(cfg, Step(cfg, sys, xs[0].now, xs[0].ev), xs[1..], ys);
    }
  }

  lemma RunOne(cfg: Config, sys: System, x: Timed)
    requires cfg.Ok() && |sys.server.leases| == MAX_LEASES
    ensures Run(cfg, sys, [x]) == Step(cfg, sys, x.now, x.ev)
  {
    var next := Step(cfg, sys, x.now, x.ev);
    assert [x][1..] == [] && Run(cfg, next, []) == next;
  }

  lemma RunTwo(cfg: Config, sys: System, x: Timed, y: Timed)
    requires cfg.Ok() && |sys.server.leases| == MAX_LEASES
    ensures Run(cfg, sys, [x, y]) == Step(cfg, Step(cfg, sys, x.now, x.ev), y.now, y.ev)
  {
    assert [x, y] == [x] + [y];
    RunOne(cfg, sys, x);
    RunJoins(cfg, sys, [x], [y]);
    RunOne(cfg, Step(cfg, sys, x.now, x.ev), y);
  }

  function Declined(mac: Mac, seen: u32, t: int): (st: Server)
    ensures |st.leases| == MAX_LEASES
  {
    DeclineStep(Saved(Met(mac, seen, t)), t, mac, 0)
  }

  function Back(cfg: Config, mac: Mac, seen: u32, t: int): (st: Server)
    requires cfg.Ok()
    ensures |st.leases| == MAX_LEASES
  {
    DiscoverStep(cfg, Declined(mac, seen, t), t, mac, 0, false).st
  }

  lemma SavesMet(cfg: Config, mac: Mac, seen: u32, t: int)
    requires cfg.Ok()
    ensures Step(cfg, System(Met(mac, seen, t), None), t, Save(true)) ==
            System(Saved(Met(mac, seen, t)), Some(TableBlob(Met(mac, seen, t))))
  {
  }

  lemma Meets(cfg: Config, mac: Mac, seen: u32, t: int)
    requires cfg.Ok() && OnBridge(cfg, seen)
    ensures Step(cfg, System(EMPTY, None), t, Observe(mac, seen)) == System(Met(mac, seen, t), None)
  {
    MeetsClient(cfg, mac, seen, t);
  }

  lemma MeetsAndSaves(cfg: Config, mac: Mac, seen: u32, t: int)
    requires cfg.Ok() && OnBridge(cfg, seen)
    ensures Run(cfg, System(EMPTY, None), [Timed(t, Observe(mac, seen)), Timed(t, Save(true))]) ==
            System(Saved(Met(mac, seen, t)), Some(TableBlob(Met(mac, seen, t))))
  {
    Meets(cfg, mac, seen, t);
    SavesMet(cfg, mac, seen, t);
    RunTwo(cfg, System(EMPTY, None), Timed(t, Observe(mac, seen)), Timed(t, Save(true)));
  }

  lemma DeclinesAndReturns(cfg: Config, mac: Mac, seen: u32, t: int, flash: Option<seq<byte>>)
    requires cfg.Ok()
    ensures Run(cfg, System(Saved(Met(mac, seen, t)), flash),
                [Timed(t, Receive(Decline(mac, 0), 0)), Timed(t, Receive(Discover(mac, 0, false), 0))]) ==
            System(Back(cfg, mac, seen, t), flash)
  {
    RunTwo(cfg, System(Saved(Met(mac, seen, t)), flash),
           Timed(t, Receive(Decline(mac, 0), 0)), Timed(t, Receive(Discover(mac, 0, false), 0)));
  }

  lemma ClaimRunEnds(cfg: Config, mac: Mac, seen: u32, t: int)
    requires cfg.Ok() && OnBridge(cfg, seen)
    ensures Run(cfg, System(EMPTY, None), ClaimRun(mac, seen, t)) ==
            System(QuarantineStep(Back(cfg, mac, seen, t), t, [mac]), Some(TableBlob(Met(mac, seen, t))))
  {
    var flash := Some(TableBlob(Met(mac, seen, t)));
    var first := [Timed(t, Observe(mac, seen)), Timed(t, Save(true))];
    var second := [Timed(t, Receive(Decline(mac, 0), 0)), Timed(t, Receive(Discover(mac, 0, false), 0))];
    var last := Timed(t, Quarantine([mac]));
    MeetsAndSaves(cfg, mac, seen, t);
    DeclinesAndReturns(cfg, mac, seen, t, flash);
    RunOne(cfg, System(Back(cfg, mac, seen, t), flash), last);
    RunJoins(cfg, System(EMPTY, None), first, second);
    RunJoins(cfg, System(EMPTY, None), first + second, [last]);
  }

  /** At the end no save is due, the client is in the table and cut off, and flash still
      has the claim that the next boot gives back to it. */
  lemma ClaimOutlivesBlock(cfg: Config, mac: Mac, seen: u32, free: u32, t: int, later: int)
    requires cfg.Ok() && OnBridge(cfg, seen) && cfg.pool.Has(free) && free != cfg.serverIp
    ensures var end := Run(cfg, System(Boot(None, t), None), ClaimRun(mac, seen, t));
            && !end.server.dirty && CutOff(end.server, mac)
            && FlashClaims(FlashRecords(end.flash), mac, seen)
            && ClaimsAgain(Boot(end.flash, later), mac, seen)
  {
    ClaimRunEnds(cfg, mac, seen, t);
    DeclinesUnnoticed(mac, seen, t);
    CutOffUnnoticed(cfg, Declined(mac, seen, t), mac, free, t);
    MetIsSaved(mac, seen, t);
    MetComesBack(mac, seen, t, later);
  }
}

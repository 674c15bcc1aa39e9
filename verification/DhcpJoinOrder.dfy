/**
 The plain reading of the promise: after a reboot the known clients come back, each
 on its own port, in any order, any number of times, asking for whatever they like,
 among newcomers, saves and further power cuts, and every one of them gets the
 address it had.
 */
module DhcpJoinOrder {
  import opened Bytes
  import opened DhcpTable
  import opened DhcpGrant
  import opened DhcpFlash
  import opened DhcpEvents
  import opened DhcpReservation

  /** Who owns which address. */
  type Owners = map<Mac, u32>

  ghost predicate AllSafe(sys: System, own: Owners) {
    SystemOk(sys) && forall mac | mac in own :: Safe(sys, mac, own[mac])
  }

  predicate ForUs(cfg: Config, serverId: u32) {
    serverId == 0 || serverId == cfg.serverIp
  }

  /** An owner asks this server for an address, on the port whose range holds its
      own, or lets it go for a while. */
  predicate FromOwner(cfg: Config, own: Owners, m: Message)
    requires cfg.Ok()
  {
    match m
    case Discover(c, _, onWire) => c in own && cfg.Served(onWire).Has(own[c])
    case Request(c, _, serverId, onWire) => c in own && cfg.Served(onWire).Has(own[c]) && ForUs(cfg, serverId)
    case Decline(_, _) => false
    case Release(_) => true
    case Inform(_, _) => true
    case Other => true
  }

  ghost predicate AllHeard(st: Server, own: Owners) {
    forall mac | mac in own :: Heard(st, mac)
  }

  /** Neither the range nor the table has run out for this client; or every owner has
      been heard from, and then it does not matter. */
  ghost predicate RoomFor(cfg: Config, st: Server, own: Owners, now: int, c: Mac, requested: u32, onWire: bool)
    requires cfg.Ok()
  {
    AllHeard(st, own) || (Direct(cfg, st, now, c, requested, onWire) && HasSlot(st, c))
  }

  /** Somebody else asks for no owner's address, and there is room; or gives an
      address of its own back; or talks to another server. */
  ghost predicate FromGuest(cfg: Config, st: Server, own: Owners, now: int, m: Message)
    requires cfg.Ok()
  {
    match m
    case Discover(c, requested, onWire) =>
      c !in own && requested !in own.Values && RoomFor(cfg, st, own, now, c, requested, onWire)
    case Request(c, requested, serverId, onWire) =>
      && c !in own
      && (ForUs(cfg, serverId) ==>
            requested !in own.Values && RoomFor(cfg, st, own, now, c, requested, onWire))
    case Decline(c, requested) => c !in own && (Known(st, c) || requested !in own.Values)
    case _ => true
  }

  /** An event that is nobody's attempt on an owner's address. */
  ghost predicate Welcome(cfg: Config, sys: System, own: Owners, now: int, ev: Event)
    requires cfg.Ok()
  {
    match ev
    case Receive(m, _) => FromOwner(cfg, own, m) || FromGuest(cfg, sys.server, own, now, m)
    case Observe(c, ip) =>
      && (forall mac | mac in own && mac != c :: ip != own[mac])
      && (c in own || AllHeard(sys.server, own) || HasSlot(sys.server, c))
    case Quarantine(macs) => forall mac | mac in own :: mac !in macs
    case Save(_) => true
    case PowerCycle => forall mac | mac in own :: FreshInFlash(sys.flash, mac)
  }

  ghost predicate WelcomeRun(cfg: Config, sys: System, own: Owners, run: seq<Timed>)
    requires cfg.Ok() && |sys.server.leases| == MAX_LEASES
    decreases |run|
  {
    run != [] ==>
      && Welcome(cfg, sys, own, run[0].now, run[0].ev)
      && WelcomeRun(cfg, Step(cfg, sys, run[0].now, run[0].ev), own, run[1..])
  }

  function ReplyTo(cfg: Config, st: Server, t: Timed): Reply
    requires cfg.Ok()
  {
    if t.ev.Receive? then Handle(cfg, st, t.now, t.ev.leaseS, t.ev.msg).reply else Silent
  }

  /** The answers along a run. */
  function Replies(cfg: Config, sys: System, run: seq<Timed>): (rs: seq<Reply>)
    requires cfg.Ok() && |sys.server.leases| == MAX_LEASES
    ensures |rs| == |run|
    decreases |run|
  {
    if run == [] then []
    else [ReplyTo(cfg, sys.server, run[0])] + Replies(cfg, Step(cfg, sys, run[0].now, run[0].ev), run[1..])
  }

  /** An owner asks for an address here. */
  predicate Asks(cfg: Config, own: Owners, ev: Event) {
    && ev.Receive? && (ev.msg.Discover? || ev.msg.Request?) && ev.msg.mac in own
    && (ev.msg.Request? ==> ForUs(cfg, ev.msg.serverId))
  }

  /** Its own address, or the refusal of a request for another one. */
  function Due(own: Owners, ev: Event): Reply
    requires ev.Receive? && (ev.msg.Discover? || ev.msg.Request?) && ev.msg.mac in own
  {
    var addr := own[ev.msg.mac];
    if ev.msg.Discover? then Offer(addr, ev.leaseS)
    else if ev.msg.requested == 0 || ev.msg.requested == addr then Ack(addr, ev.leaseS)
    else Nak
  }

  // ---- one event ----

  lemma OwnerKeepsOwn(cfg: Config, sys: System, own: Owners, now: int, c: Mac, onWire: bool)
    requires cfg.Ok() && AllSafe(sys, own) && c in own && cfg.Served(onWire).Has(own[c])
    ensures KeepsOwn(sys.server, Find(sys.server.leases, ByMac(c)), cfg.Served(onWire), now)
  {
    assert Safe(sys, c, own[c]);
  }

  lemma WelcomeIsFair(cfg: Config, sys: System, own: Owners, now: int, ev: Event, mac: Mac)
    requires cfg.Ok() && AllSafe(sys, own) && mac in own && Welcome(cfg, sys, own, now, ev)
    ensures Fair(cfg, sys, now, ev, mac, own[mac])
  {
    match ev
    case Receive(m, _) =>
      if Asks(cfg, own, ev) && FromOwner(cfg, own, m) {
        OwnerKeepsOwn(cfg, sys, own, now, m.mac, m.onWire);
      }
    case Observe(c, ip) =>
      if c in own {
        assert Safe(sys, c, own[c]);
      }
    case _ =>
  }

  lemma WelcomeKeepsSafe(cfg: Config, sys: System, own: Owners, now: int, ev: Event)
    requires cfg.Ok() && AllSafe(sys, own) && Welcome(cfg, sys, own, now, ev)
    ensures AllSafe(Step(cfg, sys, now, ev), own)
  {
    StepKeepsOk(cfg, sys, now, ev);
    forall mac | mac in own
      ensures Safe(Step(cfg, sys, now, ev), mac, own[mac])
    {
      WelcomeIsFair(cfg, sys, own, now, ev, mac);
      StepKeepsSafe(cfg, sys, now, ev, mac, own[mac]);
    }
  }

  lemma OwnerGetsDue(cfg: Config, sys: System, own: Owners, t: Timed)
    requires cfg.Ok() && AllSafe(sys, own) && Welcome(cfg, sys, own, t.now, t.ev) && Asks(cfg, own, t.ev)
    ensures ReplyTo(cfg, sys.server, t) == Due(own, t.ev)
  {
    assert Safe(sys, t.ev.msg.mac, own[t.ev.msg.mac]);
    ReservedGetsDue(cfg, sys.server, own, t);
  }

  lemma ReservedGetsDue(cfg: Config, st: Server, own: Owners, t: Timed)
    requires cfg.Ok() && Distinct(st.leases) && Asks(cfg, own, t.ev)
    requires Reserved(st, t.ev.msg.mac, own[t.ev.msg.mac]) && FromOwner(cfg, own, t.ev.msg)
    ensures ReplyTo(cfg, st, t) == Due(own, t.ev)
  {
    var m := t.ev.msg;
    OwnerKeepsAddress(cfg, st, t.now, m.mac, m.requested, m.onWire, own[m.mac]);
  }

  // ---- whole runs ----

  /** Along any run of messages from owners, who may ask for anything, and from guests,
      who may not ask for an owner's address, of observations, quarantine pushes, saves
      and power cycles: every owner that asks is answered with its own address. */
  lemma {:induction false} OwnersAreServed(cfg: Config, sys: System, own: Owners, run: seq<Timed>)
    requires cfg.Ok() && AllSafe(sys, own) && WelcomeRun(cfg, sys, own, run)
    ensures forall k | 0 <= k < |run| && Asks(cfg, own, run[k].ev) ::
              Replies(cfg, sys, run)[k] == Due(own, run[k].ev)
    decreases |run|
  {
    if run != [] {
      var next := Step(cfg, sys, run[0].now, run[0].ev);
      WelcomeKeepsSafe(cfg, sys, own, run[0].now, run[0].ev);
      OwnersAreServed(cfg, next, own, run[1..]);
      var rest := Replies(cfg, next, run[1..]);
      forall k | 0 <= k < |run| && Asks(cfg, own, run[k].ev)
        ensures Replies(cfg, sys, run)[k] == Due(own, run[k].ev)
      {
        if k == 0 {
          OwnerGetsDue(cfg, sys, own, run[0]);
        } else {
          assert run[1..][k - 1] == run[k] && Replies(cfg, sys, run)[k] == rest[k - 1];
        }
      }
    }
  }

  /** The owners named by a table, as far as a boot will believe their records. */
  ghost predicate OwnersOf(st: Server, own: Owners) {
    forall mac | mac in own ::
      exists i | 0 <= i < |st.leases| ::
        && st.leases[i].inUse && st.leases[i].mac == mac && st.leases[i].ip == own[mac] != 0
        && Age(RecordOf(st.leases[i]), NextGeneration(st.bootSeq)) <= FORGET_AFTER_BOOTS
  }

  function Rebooted(st: Server, now: int): System
    requires |st.leases| == MAX_LEASES
  {
    System(Boot(Some(TableBlob(st)), now), Some(TableBlob(st)))
  }

  lemma BootReservesAll(st: Server, own: Owners, now: int)
    requires |st.leases| == MAX_LEASES && Distinct(st.leases) && OwnersOf(st, own)
    ensures AllSafe(Rebooted(st, now), own)
  {
    SaveKeeps(st);
    PowerOnIsOk(Some(TableBlob(st)), now);
    forall mac | mac in own
      ensures Safe(Rebooted(st, now), mac, own[mac])
    {
      var i :| 0 <= i < |st.leases| && st.leases[i].inUse && st.leases[i].mac == mac
               && st.leases[i].ip == own[mac] != 0
               && Age(RecordOf(st.leases[i]), NextGeneration(st.bootSeq)) <= FORGET_AFTER_BOOTS;
      SavedIsSafe(st, i, now);
    }
  }

  /** Join order does not decide addresses. Whatever table was saved, after the power
      comes back every client it knows is given the address it had, in whatever order,
      however often and whatever they ask for, newcomers among them. */
  lemma JoinOrderDoesNotMatter(cfg: Config, st: Server, own: Owners, now: int, run: seq<Timed>)
    requires cfg.Ok() && |st.leases| == MAX_LEASES && Distinct(st.leases) && OwnersOf(st, own)
    requires WelcomeRun(cfg, Rebooted(st, now), own, run)
    ensures forall k | 0 <= k < |run| && Asks(cfg, own, run[k].ev) ::
              Replies(cfg, Rebooted(st, now), run)[k] == Due(own, run[k].ev)
  {
    BootReservesAll(st, own, now);
    OwnersAreServed(cfg, Rebooted(st, now), own, run);
  }

  // ---- which runs those are ----

  /** While only owners speak, nothing else is asked of the run. */
  lemma {:induction false} OwnersAloneAreWelcome(cfg: Config, sys: System, own: Owners, run: seq<Timed>)
    requires cfg.Ok() && |sys.server.leases| == MAX_LEASES
    requires forall k | 0 <= k < |run| :: run[k].ev.Receive? && FromOwner(cfg, own, run[k].ev.msg)
    ensures WelcomeRun(cfg, sys, own, run)
    decreases |run|
  {
    if run != [] {
      OwnersAloneAreWelcome(cfg, Step(cfg, sys, run[0].now, run[0].ev), own, run[1..]);
    }
  }

  /** For a newcomer, one address of its range that is nobody's and one free slot are
      room enough. */
  lemma NewcomerHasRoom(cfg: Config, st: Server, own: Owners, now: int, c: Mac, requested: u32, onWire: bool, x: u32)
    requires cfg.Ok() && Find(st.leases, Free) < |st.leases|
    requires cfg.Served(onWire).Has(x) && x != cfg.serverIp && x !in st.declined
    requires forall k | 0 <= k < |st.leases| && st.leases[k].inUse && !st.leases[k].quarantined ::
               st.leases[k].ip != x && st.leases[k].observedIp != x
    ensures RoomFor(cfg, st, own, now, c, requested, onWire)
  {
    GrantComplete(cfg, st, now, c, requested, onWire, x);
  }
}

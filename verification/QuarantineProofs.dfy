/** What the duplicate-address tracker guarantees over whole runs. */
module QuarantineProofs {
  import opened Bytes
  import opened DhcpReport
  import opened Quarantine

  datatype Tick = Tick(leases: seq<LeaseInfo>, clients: Clients, now: int)

  /** The pair `a`, `b` shows up on `ip` in this tick's leases. */
  ghost predicate Visible(ls: seq<LeaseInfo>, ip: u32, a: Mac, b: Mac) {
    exists i, j | 0 <= i < |ls| && 0 <= j < |ls| :: Shows(ls, i, j, ip, a, b)
  }

  predicate Shows(ls: seq<LeaseInfo>, i: int, j: int, ip: u32, a: Mac, b: Mac)
    requires 0 <= i < |ls| && 0 <= j < |ls|
  {
    i != j && ls[i].mac == a && ls[j].mac == b && Collide(ls, i, j) && EffectiveIp(ls[i]) == ip
  }

  lemma VisibleSymmetric(ls: seq<LeaseInfo>, ip: u32, a: Mac, b: Mac)
    requires Visible(ls, ip, a, b)
    ensures Visible(ls, ip, b, a)
  {
    var i, j :| 0 <= i < |ls| && 0 <= j < |ls| && Shows(ls, i, j, ip, a, b);
    assert Shows(ls, j, i, ip, b, a);
  }

  // ---- the state invariant ----

  /** At most one record per address and unordered pair. */
  ghost predicate OnePerPair(cs: seq<Conflict>) {
    forall i, j | 0 <= i < j < |cs| && cs[i].used :: !About(cs[j], cs[i].ip, cs[i].mac, cs[i].peer)
  }

  ghost predicate RecordOk(c: Conflict, exempt: seq<Mac>) {
    c.used ==>
      && c.mac != c.peer && c.confirm <= ARM_TICKS && c.miss <= 255
      && (c.armed ==> c.mac !in exempt)
  }

  ghost predicate TrackerOk(q: Tracker) {
    && |q.conflicts| == SLOTS && |q.exempt| <= SLOTS
    && OnePerPair(q.conflicts)
    && (forall k | 0 <= k < SLOTS :: RecordOk(q.conflicts[k], q.exempt))
    && q.published == Enforced(q.conflicts, q.enforce)
  }

  lemma {:induction false} ArmedMacsAre(cs: seq<Conflict>, n: nat, mac: Mac)
    requires n <= |cs|
    ensures mac in ArmedMacs(cs, n) <==>
              exists k | 0 <= k < n :: cs[k].used && cs[k].armed && cs[k].mac == mac
  {
    if n > 0 {
      ArmedMacsAre(cs, n - 1, mac);
    }
  }

  /** The packet path drops exactly the losers of armed records, and nobody once
      enforcement is off; no pardoned client is among them. */
  lemma PublishedAreTheLosers(q: Tracker, mac: Mac)
    requires TrackerOk(q)
    ensures mac in q.published <==>
              q.enforce && exists k | 0 <= k < SLOTS ::
                             q.conflicts[k].used && q.conflicts[k].armed && q.conflicts[k].mac == mac
    ensures mac in q.published ==> mac !in q.exempt
  {
    ArmedMacsAre(q.conflicts, SLOTS, mac);
  }

  /** Both ends of a pair are never cut off over one address. */
  lemma NeverBothEnds(q: Tracker, i: nat, j: nat)
    requires TrackerOk(q) && i < SLOTS && j < SLOTS
    requires q.conflicts[i].used && q.conflicts[j].used && q.conflicts[i].ip == q.conflicts[j].ip
    ensures !(q.conflicts[i].mac == q.conflicts[j].peer && q.conflicts[i].peer == q.conflicts[j].mac)
  {
  }

  // ---- the pair loop ----

  /** Pair (a, b) comes before (i, j) in the loop. */
  predicate Earlier(a: int, b: int, i: int, j: int) {
    a < i || (a == i && b < j)
  }

  /** What one sighting in this tick makes of a slot. */
  ghost predicate Touched(old_: Conflict, c: Conflict, clients: Clients) {
    && c.used && c.miss == 0 && c.mac != c.peer
    && (if old_.used then
          && About(old_, c.ip, c.mac, c.peer)
          && c.confirm == (if old_.confirm < ARM_TICKS then old_.confirm + 1 else old_.confirm)
          && c.armed == old_.armed
          && (old_.armed ==> c.mac == old_.mac && c.peer == old_.peer)
        else c.confirm == 1 && !c.armed)
    && (!c.armed ==> Before(clients, c.peer, c.mac))
  }

  ghost predicate SlotOk(was: Conflict, t: Tally, k: nat, ls: seq<LeaseInfo>, clients: Clients, i: nat, j: nat)
    requires t.Ok() && k < SLOTS
  {
    if t.seen[k] then
      && Touched(was, t.cs[k], clients)
      && exists a, b | 0 <= a < b < |ls| ::
           Earlier(a, b, i, j) && Collide(ls, a, b) && About(t.cs[k], EffectiveIp(ls[a]), ls[a].mac, ls[b].mac)
    else t.cs[k] == was
  }

  /** Every colliding pair already passed that has a record has been seen. */
  ghost predicate Covered(t: Tally, ls: seq<LeaseInfo>, i: nat, j: nat)
    requires t.Ok()
  {
    forall a, b, k | 0 <= a < b < |ls| && Earlier(a, b, i, j) && Collide(ls, a, b) && 0 <= k < SLOTS ::
      About(t.cs[k], EffectiveIp(ls[a]), ls[a].mac, ls[b].mac) ==> t.seen[k]
  }

  ghost predicate ScanOk(was: seq<Conflict>, t: Tally, ls: seq<LeaseInfo>, clients: Clients, i: nat, j: nat) {
    match t
    case Tally(cs, _) =>
      && t.Ok() && |was| == SLOTS
      && OnePerPair(cs)
      && (forall k | 0 <= k < SLOTS :: SlotOk(was[k], t, k, ls, clients, i, j))
      && Covered(t, ls, i, j)
  }

  /** The record a visit lands on has not been seen earlier in this tick. */
  lemma VisitIsFirst(was: seq<Conflict>, t: Tally, ls: seq<LeaseInfo>, clients: Clients, i: nat, j: nat, k: nat)
    requires ScanOk(was, t, ls, clients, i, j) && DistinctMacs(ls)
    requires i < j < |ls| && k < SLOTS
    requires About(t.cs[k], EffectiveIp(ls[i]), ls[i].mac, ls[j].mac)
    ensures !t.seen[k]
  {
    assert SlotOk(was[k], t, k, ls, clients, i, j);
  }

  lemma TouchIsTouched(was: Conflict, c: Conflict, clients: Clients, ip: u32, a: Mac, b: Mac)
    requires a != b
    requires if was.used then c == was && About(c, ip, a, b) else c == BLANK.(used := true, ip := ip)
    ensures Touched(was, Touch(c, clients, a, b), clients)
    ensures About(Touch(c, clients, a, b), ip, a, b)
  {
    BeforeIsStrictOrder(clients, a, b, a);
  }

  lemma NoOtherRecord(cs: seq<Conflict>, ip: u32, a: Mac, b: Mac, k: nat)
    requires OnePerPair(cs) && k < |cs| && k != FindRecord(cs, ip, a, b)
    ensures !About(cs[k], ip, a, b)
  {
    var found := FindRecord(cs, ip, a, b);
    if found < |cs| && About(cs[k], ip, a, b) {
      SameRecord(cs[found], cs[k], ip, a, b);
    }
  }

  lemma SameRecord(c: Conflict, d: Conflict, ip: u32, a: Mac, b: Mac)
    requires About(c, ip, a, b) && About(d, ip, a, b)
    ensures About(c, d.ip, d.mac, d.peer) && About(d, c.ip, c.mac, c.peer)
  {
  }

  lemma ReplaceKeepsOnePerPair(cs: seq<Conflict>, at: nat, c: Conflict, ip: u32, a: Mac, b: Mac)
    requires OnePerPair(cs) && at < |cs| && About(c, ip, a, b)
    requires forall k | 0 <= k < |cs| && k != at :: !About(cs[k], ip, a, b)
    ensures OnePerPair(cs[at := c])
  {
  }

  lemma VisitKeepsOnePerPair(t: Tally, clients: Clients, ip: u32, a: Mac, b: Mac)
    requires t.Ok() && OnePerPair(t.cs) && a != b
    ensures OnePerPair(Visit(t, clients, ip, a, b).cs)
  {
    var found := FindRecord(t.cs, ip, a, b);
    var at := if found < SLOTS then found else FindFree(t.cs);
    forall k | 0 <= k < SLOTS && k != found
      ensures !About(t.cs[k], ip, a, b)
    {
      NoOtherRecord(t.cs, ip, a, b, k);
    }
    if at < SLOTS {
      var c := if found < SLOTS then t.cs[found] else BLANK.(used := true, ip := ip);
      ReplaceKeepsOnePerPair(t.cs, at, Touch(c, clients, a, b), ip, a, b);
    }
  }

  lemma VisitKeepsSlots(was: seq<Conflict>, t: Tally, ls: seq<LeaseInfo>, clients: Clients, i: nat, j: nat, k: nat)
    requires ScanOk(was, t, ls, clients, i, j) && DistinctMacs(ls)
    requires i < j < |ls| && Collide(ls, i, j) && k < SLOTS
    ensures SlotOk(was[k], Visit(t, clients, EffectiveIp(ls[i]), ls[i].mac, ls[j].mac), k, ls, clients, i, j + 1)
  {
    var ip, a, b := EffectiveIp(ls[i]), ls[i].mac, ls[j].mac;
    var r := Visit(t, clients, ip, a, b);
    var found := FindRecord(t.cs, ip, a, b);
    var at := if found < SLOTS then found else FindFree(t.cs);
    assert SlotOk(was[k], t, k, ls, clients, i, j);
    if k == at {
      if found < SLOTS {
        VisitIsFirst(was, t, ls, clients, i, j, k);
      }
      assert t.cs[k] == was[k];
      TouchIsTouched(was[k], if found < SLOTS then was[k] else BLANK.(used := true, ip := ip), clients, ip, a, b);
      assert Earlier(i, j, i, j + 1) && About(r.cs[k], ip, a, b);
    } else {
      assert r.cs[k] == t.cs[k] && r.seen[k] == t.seen[k];
      if t.seen[k] {
        var x, y :| 0 <= x < y < |ls| && Earlier(x, y, i, j)
                    && Collide(ls, x, y) && About(t.cs[k], EffectiveIp(ls[x]), ls[x].mac, ls[y].mac);
        assert Earlier(x, y, i, j + 1);
      }
    }
  }

  lemma VisitKeepsCovered(was: seq<Conflict>, t: Tally, ls: seq<LeaseInfo>, clients: Clients, i: nat, j: nat)
    requires ScanOk(was, t, ls, clients, i, j) && DistinctMacs(ls)
    requires i < j < |ls| && Collide(ls, i, j)
    ensures Covered(Visit(t, clients, EffectiveIp(ls[i]), ls[i].mac, ls[j].mac), ls, i, j + 1)
  {
    var ip, a, b := EffectiveIp(ls[i]), ls[i].mac, ls[j].mac;
    var r := Visit(t, clients, ip, a, b);
    VisitKeepsOnePerPair(t, clients, ip, a, b);
    var found := FindRecord(t.cs, ip, a, b);
    var at := if found < SLOTS then found else FindFree(t.cs);
    forall x, y, k | 0 <= x < y < |ls| && Earlier(x, y, i, j + 1) && Collide(ls, x, y) && 0 <= k < SLOTS
                     && About(r.cs[k], EffectiveIp(ls[x]), ls[x].mac, ls[y].mac)
      ensures r.seen[k]
    {
      if k != at {
        NoOtherRecord(t.cs, ip, a, b, k);
        assert Earlier(x, y, i, j);
      }
    }
  }

  lemma SkipKeepsScan(was: seq<Conflict>, t: Tally, ls: seq<LeaseInfo>, clients: Clients, i: nat, j: nat, i2: nat, j2: nat)
    requires ScanOk(was, t, ls, clients, i, j)
    requires forall a, b | 0 <= a < b < |ls| && Earlier(a, b, i2, j2) && Collide(ls, a, b) :: Earlier(a, b, i, j)
    requires forall a, b | 0 <= a < b < |ls| && Earlier(a, b, i, j) :: Earlier(a, b, i2, j2)
    ensures ScanOk(was, t, ls, clients, i2, j2)
  {
    forall k | 0 <= k < SLOTS
      ensures SlotOk(was[k], t, k, ls, clients, i2, j2)
    {
      assert SlotOk(was[k], t, k, ls, clients, i, j);
    }
  }

  lemma VisitKeepsScan(was: seq<Conflict>, t: Tally, ls: seq<LeaseInfo>, clients: Clients, i: nat, j: nat)
    requires ScanOk(was, t, ls, clients, i, j) && DistinctMacs(ls)
    requires i < j < |ls| && Collide(ls, i, j)
    ensures ScanOk(was, Visit(t, clients, EffectiveIp(ls[i]), ls[i].mac, ls[j].mac), ls, clients, i, j + 1)
  {
    var r := Visit(t, clients, EffectiveIp(ls[i]), ls[i].mac, ls[j].mac);
    VisitKeepsOnePerPair(t, clients, EffectiveIp(ls[i]), ls[i].mac, ls[j].mac);
    VisitKeepsCovered(was, t, ls, clients, i, j);
    forall k | 0 <= k < SLOTS
      ensures SlotOk(was[k], r, k, ls, clients, i, j + 1)
    {
      VisitKeepsSlots(was, t, ls, clients, i, j, k);
    }
  }

  /** One turn of the pair loop: where it goes next, and what stays true. */
  lemma Advance(was: seq<Conflict>, t: Tally, ls: seq<LeaseInfo>, clients: Clients, i: nat, j: nat)
    returns (r: Tally, i2: nat, j2: nat)
    requires ScanOk(was, t, ls, clients, i, j) && DistinctMacs(ls) && i < j && i < |ls|
    ensures ScanOk(was, r, ls, clients, i2, j2) && i2 < j2
    ensures i < i2 || (i == i2 && j < |ls| && j2 == j + 1)
    ensures Pairs(t, ls, clients, i, j) == Pairs(r, ls, clients, i2, j2)
  {
    if j >= |ls| || EffectiveIp(ls[i]) == 0 {
      r, i2, j2 := t, i + 1, i + 2;
      SkipKeepsScan(was, t, ls, clients, i, j, i2, j2);
    } else if !Collide(ls, i, j) {
      r, i2, j2 := t, i, j + 1;
      SkipKeepsScan(was, t, ls, clients, i, j, i2, j2);
    } else {
      r, i2, j2 := Visit(t, clients, EffectiveIp(ls[i]), ls[i].mac, ls[j].mac), i, j + 1;
      VisitKeepsScan(was, t, ls, clients, i, j);
    }
  }

  lemma {:induction false} PairsScan(was: seq<Conflict>, t: Tally, ls: seq<LeaseInfo>, clients: Clients, i: nat, j: nat)
    requires ScanOk(was, t, ls, clients, i, j) && DistinctMacs(ls) && i < j
    ensures ScanOk(was, Pairs(t, ls, clients, i, j), ls, clients, |ls|, |ls|)
    decreases |ls| - i, |ls| - j
  {
    if i >= |ls| {
      SkipKeepsScan(was, t, ls, clients, i, j, |ls|, |ls|);
    } else {
      var r, i2, j2 := Advance(was, t, ls, clients, i, j);
      PairsScan(was, r, ls, clients, i2, j2);
    }
  }

  lemma TalliedScan(q: Tracker, ls: seq<LeaseInfo>, clients: Clients)
    requires TrackerOk(q) && DistinctMacs(ls)
    ensures ScanOk(q.conflicts, Tallied(q, ls, clients), ls, clients, |ls|, |ls|)
  {
    var t := Tally(q.conflicts, seq(SLOTS, _ => false));
    PairsScan(q.conflicts, t, ls, clients, 0, 1);
  }

  lemma VisibleIsSeen(t: Tally, ls: seq<LeaseInfo>, k: nat)
    requires t.Ok() && Covered(t, ls, |ls|, |ls|) && k < SLOTS && t.cs[k].used
    requires Visible(ls, t.cs[k].ip, t.cs[k].mac, t.cs[k].peer)
    ensures t.seen[k]
  {
    var c := t.cs[k];
    var i, j :| 0 <= i < |ls| && 0 <= j < |ls| && Shows(ls, i, j, c.ip, c.mac, c.peer);
    var a, b := if i < j then i else j, if i < j then j else i;
    assert Earlier(a, b, |ls|, |ls|) && Collide(ls, a, b);
    assert About(c, EffectiveIp(ls[a]), ls[a].mac, ls[b].mac);
  }

  /** After the pair loop: a seen slot moved by exactly one sighting of a visible
      pair; an unseen one is as it was and, if in use, its pair was not visible. */
  lemma TalliedMeans(q: Tracker, ls: seq<LeaseInfo>, clients: Clients, k: nat)
    requires TrackerOk(q) && DistinctMacs(ls) && k < SLOTS
    ensures var t := Tallied(q, ls, clients);
            && OnePerPair(t.cs)
            && (t.seen[k] ==>
                  && Touched(q.conflicts[k], t.cs[k], clients)
                  && Visible(ls, t.cs[k].ip, t.cs[k].mac, t.cs[k].peer))
            && (!t.seen[k] ==>
                  && t.cs[k] == q.conflicts[k]
                  && (t.cs[k].used ==> !Visible(ls, t.cs[k].ip, t.cs[k].mac, t.cs[k].peer)))
  {
    TalliedScan(q, ls, clients);
    var t := Tallied(q, ls, clients);
    var c := t.cs[k];
    assert SlotOk(q.conflicts[k], t, k, ls, clients, |ls|, |ls|);
    if t.seen[k] {
      var a, b :| 0 <= a < b < |ls| && Earlier(a, b, |ls|, |ls|) && Collide(ls, a, b)
                  && About(c, EffectiveIp(ls[a]), ls[a].mac, ls[b].mac);
      assert Shows(ls, a, b, c.ip, ls[a].mac, ls[b].mac);
      assert Shows(ls, b, a, c.ip, ls[b].mac, ls[a].mac);
    }
    if c.used && Visible(ls, c.ip, c.mac, c.peer) {
      VisibleIsSeen(t, ls, k);
    }
  }

  // ---- what every operation keeps ----

  lemma JudgedOnePerPair(t: Tally, clients: Clients, exempt: seq<Mac>, now: int)
    requires t.Ok() && OnePerPair(t.cs)
    ensures OnePerPair(Judged(t, clients, exempt, now))
  {
  }

  lemma RebuildKeepsOk(q: Tracker, ls: seq<LeaseInfo>, clients: Clients, now: int)
    requires TrackerOk(q) && DistinctMacs(ls)
    ensures TrackerOk(Rebuild(q, ls, clients, now))
  {
    var t := Tallied(q, ls, clients);
    TalliedMeans(q, ls, clients, 0);
    JudgedOnePerPair(t, clients, q.exempt, now);
    forall k | 0 <= k < SLOTS
      ensures RecordOk(Rebuild(q, ls, clients, now).conflicts[k], q.exempt)
    {
      TalliedMeans(q, ls, clients, k);
      assert RecordOk(q.conflicts[k], q.exempt);
    }
  }

  lemma ClearKeepsOk(q: Tracker, mac: Option<Mac>)
    requires TrackerOk(q)
    ensures TrackerOk(Clear(q, mac))
  {
  }

  lemma EnforceKeepsOk(q: Tracker, on: bool)
    requires TrackerOk(q)
    ensures TrackerOk(Enforce(q, on))
  {
  }

  // ---- arming and disarming over the history of ticks ----

  ghost predicate SeenIn(hist: seq<Tick>, n: nat, c: Conflict) {
    n <= |hist| && forall t | |hist| - n <= t < |hist| :: Visible(hist[t].leases, c.ip, c.mac, c.peer)
  }

  ghost predicate UnseenIn(hist: seq<Tick>, n: nat, c: Conflict) {
    n <= |hist| && forall t | |hist| - n <= t < |hist| :: !Visible(hist[t].leases, c.ip, c.mac, c.peer)
  }

  /** The counters tell the truth about the ticks so far. */
  ghost predicate Truthful(q: Tracker, hist: seq<Tick>) {
    && TrackerOk(q)
    && forall k | 0 <= k < SLOTS && q.conflicts[k].used ::
         && SeenIn(hist, q.conflicts[k].confirm, q.conflicts[k])
         && UnseenIn(hist, q.conflicts[k].miss, q.conflicts[k])
  }

  lemma SamePairVisible(ls: seq<LeaseInfo>, a: Conflict, b: Conflict)
    requires About(a, b.ip, b.mac, b.peer)
    ensures Visible(ls, a.ip, a.mac, a.peer) <==> Visible(ls, b.ip, b.mac, b.peer)
  {
    if Visible(ls, a.ip, a.mac, a.peer) {
      VisibleSymmetric(ls, a.ip, a.mac, a.peer);
    }
    if Visible(ls, b.ip, b.mac, b.peer) {
      VisibleSymmetric(ls, b.ip, b.mac, b.peer);
    }
  }

  lemma CountsExtend(hist: seq<Tick>, tick: Tick, old_: Conflict, c: Conflict, n: nat)
    requires About(old_, c.ip, c.mac, c.peer)
    ensures SeenIn(hist, n, old_) && Visible(tick.leases, c.ip, c.mac, c.peer) ==> SeenIn(hist + [tick], n + 1, c)
    ensures UnseenIn(hist, n, old_) && !Visible(tick.leases, c.ip, c.mac, c.peer) ==> UnseenIn(hist + [tick], n + 1, c)
  {
    var h := hist + [tick];
    forall t | 0 <= t < |hist|
      ensures Visible(h[t].leases, c.ip, c.mac, c.peer) <==> Visible(hist[t].leases, old_.ip, old_.mac, old_.peer)
    {
      SamePairVisible(hist[t].leases, old_, c);
    }
  }

  lemma RebuildIsTruthful(q: Tracker, hist: seq<Tick>, tick: Tick, k: nat)
    requires Truthful(q, hist) && DistinctMacs(tick.leases) && k < SLOTS
    requires Rebuild(q, tick.leases, tick.clients, tick.now).conflicts[k].used
    ensures var c := Rebuild(q, tick.leases, tick.clients, tick.now).conflicts[k];
            SeenIn(hist + [tick], c.confirm, c) && UnseenIn(hist + [tick], c.miss, c)
  {
    var was := q.conflicts[k];
    var t := Tallied(q, tick.leases, tick.clients);
    var c := Rebuild(q, tick.leases, tick.clients, tick.now).conflicts[k];
    TalliedMeans(q, tick.leases, tick.clients, k);
    if was.used {
      CountsExtend(hist, tick, was, c, was.confirm);
      CountsExtend(hist, tick, was, c, was.miss);
    }
  }

  lemma TickKeepsTruth(q: Tracker, hist: seq<Tick>, tick: Tick)
    requires Truthful(q, hist) && DistinctMacs(tick.leases)
    ensures Truthful(Rebuild(q, tick.leases, tick.clients, tick.now), hist + [tick])
  {
    RebuildKeepsOk(q, tick.leases, tick.clients, tick.now);
    var r := Rebuild(q, tick.leases, tick.clients, tick.now);
    forall k | 0 <= k < SLOTS && r.conflicts[k].used
      ensures SeenIn(hist + [tick], r.conflicts[k].confirm, r.conflicts[k])
      ensures UnseenIn(hist + [tick], r.conflicts[k].miss, r.conflicts[k])
    {
      RebuildIsTruthful(q, hist, tick, k);
    }
  }

  ghost predicate IsArmed(q: Tracker, k: nat)
    requires k < |q.conflicts|
  {
    q.conflicts[k].used && q.conflicts[k].armed
  }

  /** Nobody is cut off without this: the same pair on the same address for three
      ticks running, both heard from within thirty seconds, both seen on it by
      their own traffic, and the one kept first seen there no later. */
  lemma ArmingEvidence(q: Tracker, hist: seq<Tick>, tick: Tick, k: nat)
    requires Truthful(q, hist) && DistinctMacs(tick.leases) && k < SLOTS
    requires !IsArmed(q, k) && IsArmed(Rebuild(q, tick.leases, tick.clients, tick.now), k)
    ensures var c := Rebuild(q, tick.leases, tick.clients, tick.now).conflicts[k];
            && SeenIn(hist + [tick], ARM_TICKS, c)
            && c.mac in tick.clients && c.peer in tick.clients
            && tick.now - tick.clients[c.mac].lastSeenUs < LIVENESS_US
            && tick.now - tick.clients[c.peer].lastSeenUs < LIVENESS_US
            && tick.clients[c.mac].ip == tick.clients[c.peer].ip == c.ip
            && tick.clients[c.peer].ipSinceUs != 0
            && tick.clients[c.peer].ipSinceUs <= tick.clients[c.mac].ipSinceUs
            && Before(tick.clients, c.peer, c.mac)
            && c.mac !in q.exempt
  {
    TalliedMeans(q, tick.leases, tick.clients, k);
    RebuildIsTruthful(q, hist, tick, k);
    RebuildKeepsOk(q, tick.leases, tick.clients, tick.now);
  }

  /** Who loses is settled once: a tick keeps an armed record's address and roles,
      and only lets go after ten ticks running without the pair. */
  lemma ArmedStays(q: Tracker, hist: seq<Tick>, tick: Tick, k: nat)
    requires Truthful(q, hist) && DistinctMacs(tick.leases) && k < SLOTS && IsArmed(q, k)
    ensures var was, c := q.conflicts[k], Rebuild(q, tick.leases, tick.clients, tick.now).conflicts[k];
            && c.ip == was.ip && c.mac == was.mac && c.peer == was.peer
            && (!IsArmed(Rebuild(q, tick.leases, tick.clients, tick.now), k) ==>
                  UnseenIn(hist + [tick], DISARM_TICKS, was))
  {
    var was := q.conflicts[k];
    TalliedMeans(q, tick.leases, tick.clients, k);
    if !Tallied(q, tick.leases, tick.clients).seen[k] {
      CountsExtend(hist, tick, was, was, was.miss);
    }
  }

  /** Between ticks, only a pardon of its loser disarms a record. */
  lemma OnlyAPardonDisarms(q: Tracker, mac: Option<Mac>, on: bool, k: nat)
    requires TrackerOk(q) && k < SLOTS && IsArmed(q, k)
    ensures Enforce(q, on).conflicts == q.conflicts
    ensures IsArmed(Clear(q, mac), k) <==>
              !(mac.Some? && CanPardon(q, mac.value) && mac.value == q.conflicts[k].mac)
    ensures Clear(q, mac).conflicts[k].mac == q.conflicts[k].mac
  {
  }

  // ---- whole runs ----

  datatype Op = Second(tick: Tick) | Pardon(mac: Option<Mac>) | Switch(on: bool)

  function Apply(q: Tracker, op: Op): (r: Tracker)
    requires |q.conflicts| == SLOTS
    ensures |r.conflicts| == SLOTS
  {
    match op
    case Second(tick) => Rebuild(q, tick.leases, tick.clients, tick.now)
    case Pardon(mac) => Clear(q, mac)
    case Switch(on) => Enforce(q, on)
  }

  function Run(q: Tracker, ops: seq<Op>): (r: Tracker)
    requires |q.conflicts| == SLOTS
    ensures |r.conflicts| == SLOTS
    decreases |ops|
  {
    if ops == [] then q else Run(Apply(q, ops[0]), ops[1..])
  }

  /** The ticks among the operations. */
  function Ticks(ops: seq<Op>): seq<Tick> {
    if ops == [] then []
    else (if ops[0].Second? then [ops[0].tick] else []) + Ticks(ops[1..])
  }

  lemma ApplyKeepsTruth(q: Tracker, hist: seq<Tick>, op: Op)
    requires Truthful(q, hist) && (op.Second? ==> DistinctMacs(op.tick.leases))
    ensures Truthful(Apply(q, op), hist + Ticks([op]))
  {
    match op
    case Second(tick) =>
      TickKeepsTruth(q, hist, tick);
      assert Ticks([op]) == [tick];
    case Pardon(mac) =>
      ClearKeepsOk(q, mac);
      assert hist + Ticks([op]) == hist;
    case Switch(on) =>
      EnforceKeepsOk(q, on);
      assert hist + Ticks([op]) == hist;
  }

  /** Over any run, the records tell the truth about the ticks and the packet path
      agrees with the records. */
  lemma {:induction false} RunIsTruthful(q: Tracker, hist: seq<Tick>, ops: seq<Op>)
    requires Truthful(q, hist)
    requires forall k | 0 <= k < |ops| && ops[k].Second? :: DistinctMacs(ops[k].tick.leases)
    ensures Truthful(Run(q, ops), hist + Ticks(ops))
    decreases |ops|
  {
    if ops == [] {
      assert hist + Ticks(ops) == hist;
    } else {
      ApplyKeepsTruth(q, hist, ops[0]);
      RunIsTruthful(Apply(q, ops[0]), hist + Ticks([ops[0]]), ops[1..]);
      assert hist + Ticks([ops[0]]) + Ticks(ops[1..]) == hist + Ticks(ops);
    }
  }

  lemma StartIsTruthful()
    ensures Truthful(START, [])
  {
    var cs := START.conflicts;
    assert forall k | 0 <= k < SLOTS :: cs[k] == BLANK;
    assert ArmedMacs(cs, 1) == ArmedMacs(cs, 2) == ArmedMacs(cs, 3) == [];
  }

  // ---- first come, first served ----

  /** Slot `k` armed on `ip` in this very tick. */
  ghost predicate JustArmed(q: Tracker, r: Tracker, k: nat, ip: u32)
    requires k < |q.conflicts| && k < |r.conflicts|
  {
    !IsArmed(q, k) && IsArmed(r, k) && r.conflicts[k].ip == ip
  }

  /** Among the first `n` slots just armed, one whose kept device came first. */
  lemma {:induction false} EarliestKept(q: Tracker, tick: Tick, ip: u32, n: nat) returns (best: nat)
    requires TrackerOk(q) && DistinctMacs(tick.leases) && n <= SLOTS
    ensures var r := Rebuild(q, tick.leases, tick.clients, tick.now);
            if best == SLOTS then forall k | 0 <= k < n :: !JustArmed(q, r, k, ip)
            else
              && best < n && JustArmed(q, r, best, ip)
              && forall k | 0 <= k < n && JustArmed(q, r, k, ip) ::
                   !Before(tick.clients, r.conflicts[k].peer, r.conflicts[best].peer)
  {
    var r := Rebuild(q, tick.leases, tick.clients, tick.now);
    if n == 0 {
      return SLOTS;
    }
    best := EarliestKept(q, tick, ip, n - 1);
    if JustArmed(q, r, n - 1, ip) {
      var p := r.conflicts[n - 1].peer;
      if best == SLOTS || Before(tick.clients, p, r.conflicts[best].peer) {
        forall k | 0 <= k < n && JustArmed(q, r, k, ip)
          ensures !Before(tick.clients, r.conflicts[k].peer, p)
        {
          BeforeIsStrictOrder(tick.clients, p, p, p);
          if best != SLOTS && k < n - 1 {
            BeforeIsStrictOrder(tick.clients, r.conflicts[k].peer, p, r.conflicts[best].peer);
          }
        }
        best := n - 1;
      }
    }
  }

  /** `a` is `b`, or keeps an address against it. */
  ghost predicate ComesFirst(clients: Clients, a: Mac, b: Mac) {
    a == b || Before(clients, a, b)
  }

  /** `first` comes before every other device of the conflicts just armed on `ip`, and
      strictly before every one of them that is cut off. */
  ghost predicate IsFirst(q: Tracker, r: Tracker, tick: Tick, ip: u32, first: Mac)
    requires |q.conflicts| == SLOTS && |r.conflicts| == SLOTS
  {
    forall j | 0 <= j < SLOTS && JustArmed(q, r, j, ip) ::
      && ComesFirst(tick.clients, first, r.conflicts[j].peer)
      && Before(tick.clients, first, r.conflicts[j].mac) && r.conflicts[j].mac != first
  }

  /** Of the devices whose conflicts over one address arm in the same tick, the one
      that was there first is kept: it comes before every other device in any of them,
      and none of them cuts it off. */
  lemma FirstDeviceIsKept(q: Tracker, hist: seq<Tick>, tick: Tick, ip: u32, k: nat)
    requires Truthful(q, hist) && DistinctMacs(tick.leases) && k < SLOTS
    requires JustArmed(q, Rebuild(q, tick.leases, tick.clients, tick.now), k, ip)
    ensures var r := Rebuild(q, tick.leases, tick.clients, tick.now);
            exists b | 0 <= b < SLOTS :: JustArmed(q, r, b, ip) && IsFirst(q, r, tick, ip, r.conflicts[b].peer)
  {
    var r := Rebuild(q, tick.leases, tick.clients, tick.now);
    var b := EarliestKept(q, tick, ip, SLOTS);
    var first := r.conflicts[b].peer;
    forall j | 0 <= j < SLOTS && JustArmed(q, r, j, ip)
      ensures ComesFirst(tick.clients, first, r.conflicts[j].peer)
      ensures Before(tick.clients, first, r.conflicts[j].mac)
    {
      var p, m := r.conflicts[j].peer, r.conflicts[j].mac;
      ArmingEvidence(q, hist, tick, j);
      BeforeIsStrictOrder(tick.clients, first, p, m);
    }
    assert JustArmed(q, r, b, ip);
  }
}

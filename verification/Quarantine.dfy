/**
 The duplicate-address decision: once a second, which pairs of clients sit on one
 address, who got there first, and whom to cut off.
 */
module Quarantine {
  import opened Bytes
  import opened DhcpReport

  const SLOTS: nat := 4
  const ARM_TICKS: nat := 3
  const DISARM_TICKS: nat := 10
  const FORGET_TICKS: nat := 30
  const LIVENESS_US: int := 30_000_000

  /** A tracked client. `ipSinceUs` is when its own traffic first vouched for
      `ip`, or 0 if it never has. */
  datatype Client = Client(lastSeenUs: int, ip: u32, ipSinceUs: int)

  type Clients = map<Mac, Client>

  /** `mac` is the one being cut off, `peer` the one keeping the address. */
  datatype Conflict = Conflict(
    used: bool, mac: Mac, peer: Mac, ip: u32, confirm: nat, miss: nat, armed: bool)

  const BLANK := Conflict(false, NO_MAC, NO_MAC, 0, 0, 0, false)

  // ---- who was there first ----

  /** `memcmp` order. */
  predicate LexLess(a: seq<byte>, b: seq<byte>) {
    b != [] && (a == [] || a[0] < b[0] || (a[0] == b[0] && LexLess(a[1..], b[1..])))
  }

  function Since(clients: Clients, mac: Mac): int {
    if mac in clients then clients[mac].ipSinceUs else 0
  }

  /** Of `a` and `b` on one address, `b` is the later arrival and loses it. */
  predicate LoserIsB(ta: int, tb: int, a: Mac, b: Mac) {
    if ta != tb then
      if ta == 0 then false else if tb == 0 then true else tb > ta
    else LexLess(a, b)
  }

  /** `a` keeps an address against `b`. */
  predicate Before(clients: Clients, a: Mac, b: Mac) {
    LoserIsB(Since(clients, a), Since(clients, b), a, b)
  }

  lemma {:induction false} LexTotal(a: seq<byte>, b: seq<byte>)
    requires |a| == |b|
    ensures a != b ==> LexLess(a, b) || LexLess(b, a)
    ensures !(LexLess(a, b) && LexLess(b, a)) && !LexLess(a, a)
  {
    if a != [] {
      LexTotal(a[1..], b[1..]);
      LexIrreflexive(a);
      assert a == [a[0]] + a[1..] && b == [b[0]] + b[1..];
    }
  }

  lemma {:induction false} LexIrreflexive(a: seq<byte>)
    ensures !LexLess(a, a)
  {
    if a != [] {
      LexIrreflexive(a[1..]);
    }
  }

  lemma {:induction false} LexTransitive(a: seq<byte>, b: seq<byte>, c: seq<byte>)
    requires LexLess(a, b) && LexLess(b, c)
    ensures LexLess(a, c)
  {
    if a != [] && a[0] == b[0] == c[0] {
      LexTransitive(a[1..], b[1..], c[1..]);
    }
  }

  /** The first-come rule is a strict total order on clients. */
  lemma BeforeIsStrictOrder(clients: Clients, a: Mac, b: Mac, c: Mac)
    ensures !Before(clients, a, a)
    ensures a != b ==> Before(clients, a, b) != Before(clients, b, a)
    ensures Before(clients, a, b) && Before(clients, b, c) ==> Before(clients, a, c)
  {
    LexTotal(a, b);
    LexIrreflexive(a);
    if LexLess(a, b) && LexLess(b, c) {
      LexTransitive(a, b, c);
    }
  }

  // ---- one tick: the pairs ----

  /** The address a lease entry means a device is on. An expired lease is none. */
  function EffectiveIp(l: LeaseInfo): u32 {
    if l.observedIp != 0 then l.observedIp else if l.expiresInS > 0 then l.ip else 0
  }

  predicate About(c: Conflict, ip: u32, a: Mac, b: Mac) {
    c.used && c.ip == ip && ((c.mac == a && c.peer == b) || (c.mac == b && c.peer == a))
  }

  function FindRecord(cs: seq<Conflict>, ip: u32, a: Mac, b: Mac): (r: nat)
    ensures r <= |cs|
    ensures r < |cs| ==> About(cs[r], ip, a, b)
    ensures forall k | 0 <= k < r :: !About(cs[k], ip, a, b)
  {
    if cs == [] || About(cs[0], ip, a, b) then 0 else 1 + FindRecord(cs[1..], ip, a, b)
  }

  function FindFree(cs: seq<Conflict>): (r: nat)
    ensures r <= |cs|
    ensures r < |cs| ==> !cs[r].used
    ensures forall k | 0 <= k < r :: cs[k].used
  {
    if cs == [] || !cs[0].used then 0 else 1 + FindFree(cs[1..])
  }

  /** The records, and which of them this tick has seen again. */
  datatype Tally = Tally(cs: seq<Conflict>, seen: seq<bool>) {
    ghost predicate Ok() {
      |cs| == SLOTS && |seen| == SLOTS
    }
  }

  /** The record after being seen once more: counted, and with its roles decided
      afresh unless it is armed. */
  function Touch(c: Conflict, clients: Clients, a: Mac, b: Mac): Conflict {
    var roles :=
      if c.armed then c
      else if Before(clients, a, b) then c.(mac := b, peer := a)
      else c.(mac := a, peer := b);
    roles.(miss := 0, confirm := if c.confirm < ARM_TICKS then c.confirm + 1 else c.confirm)
  }

  function Visit(t: Tally, clients: Clients, ip: u32, a: Mac, b: Mac): (r: Tally)
    requires t.Ok()
    ensures r.Ok()
  {
    var found := FindRecord(t.cs, ip, a, b);
    if found < SLOTS then
      Tally(t.cs[found := Touch(t.cs[found], clients, a, b)], t.seen[found := true])
    else
      var free := FindFree(t.cs);
      if free == SLOTS then t
      else Tally(t.cs[free := Touch(BLANK.(used := true, ip := ip), clients, a, b)],
                 t.seen[free := true])
  }

  /** Entries `i` and `j` are two clients on one address. */
  predicate Collide(ls: seq<LeaseInfo>, i: nat, j: nat)
    requires i < |ls| && j < |ls|
  {
    EffectiveIp(ls[i]) != 0 && EffectiveIp(ls[i]) == EffectiveIp(ls[j])
  }

  /** The rest of the pair loop from (i, j) on. */
  function Pairs(t: Tally, ls: seq<LeaseInfo>, clients: Clients, i: nat, j: nat): (r: Tally)
    requires t.Ok() && i < j
    ensures r.Ok()
    decreases |ls| - i, |ls| - j
  {
    if i >= |ls| then t
    else if j >= |ls| || EffectiveIp(ls[i]) == 0 then Pairs(t, ls, clients, i + 1, i + 2)
    else if !Collide(ls, i, j) then Pairs(t, ls, clients, i, j + 1)
    else Pairs(Visit(t, clients, EffectiveIp(ls[i]), ls[i].mac, ls[j].mac), ls, clients, i, j + 1)
  }

  // ---- one tick: the verdicts ----

  predicate Live(clients: Clients, mac: Mac, now: int) {
    mac in clients && now - clients[mac].lastSeenUs < LIVENESS_US
  }

  predicate SeenOn(clients: Clients, mac: Mac, ip: u32) {
    mac in clients && clients[mac].ipSinceUs != 0 && clients[mac].ip == ip
  }

  predicate MayArm(c: Conflict, clients: Clients, exempt: seq<Mac>, now: int) {
    && Live(clients, c.mac, now) && Live(clients, c.peer, now)
    && SeenOn(clients, c.mac, c.ip) && SeenOn(clients, c.peer, c.ip)
    && c.mac !in exempt
  }

  function Judge(c: Conflict, seen: bool, clients: Clients, exempt: seq<Mac>, now: int): Conflict {
    if !c.used then c
    else if !seen then
      var miss := if c.miss < 255 then c.miss + 1 else c.miss;
      c.(confirm := 0, miss := miss,
         armed := c.armed && miss < DISARM_TICKS, used := miss < FORGET_TICKS)
    else if !c.armed && c.confirm >= ARM_TICKS && MayArm(c, clients, exempt, now) then
      c.(armed := true)
    else c
  }

  /** The losers of the armed records among the first `n` slots. */
  function ArmedMacs(cs: seq<Conflict>, n: nat): (r: seq<Mac>)
    requires n <= |cs|
    ensures |r| <= n
  {
    if n == 0 then []
    else if cs[n - 1].used && cs[n - 1].armed then ArmedMacs(cs, n - 1) + [cs[n - 1].mac]
    else ArmedMacs(cs, n - 1)
  }

  datatype Tracker = Tracker(
    conflicts: seq<Conflict>, exempt: seq<Mac>, enforce: bool, published: seq<Mac>)

  const START := Tracker(seq(SLOTS, _ => BLANK), [], true, [])

  /** What the tracker hands the packet path when it republishes. */
  function Enforced(cs: seq<Conflict>, enforce: bool): (r: seq<Mac>)
    requires |cs| == SLOTS
    ensures |r| <= SLOTS
  {
    if enforce then ArmedMacs(cs, SLOTS) else []
  }

  function Judged(t: Tally, clients: Clients, exempt: seq<Mac>, now: int): (r: seq<Conflict>)
    requires t.Ok()
    ensures |r| == SLOTS
    ensures forall k | 0 <= k < SLOTS :: r[k] == Judge(t.cs[k], t.seen[k], clients, exempt, now)
  {
    seq(SLOTS, k requires 0 <= k < SLOTS => Judge(t.cs[k], t.seen[k], clients, exempt, now))
  }

  function Tallied(q: Tracker, ls: seq<LeaseInfo>, clients: Clients): (t: Tally)
    requires |q.conflicts| == SLOTS
    ensures t.Ok()
  {
    Pairs(Tally(q.conflicts, seq(SLOTS, _ => false)), ls, clients, 0, 1)
  }

  function Rebuild(q: Tracker, ls: seq<LeaseInfo>, clients: Clients, now: int): (r: Tracker)
    requires |q.conflicts| == SLOTS
    ensures |r.conflicts| == SLOTS
  {
    var cs := Judged(Tallied(q, ls, clients), clients, q.exempt, now);
    q.(conflicts := cs, published := Enforced(cs, q.enforce))
  }

  // ---- the operator's two levers ----

  function Disarm(c: Conflict, mac: Mac): Conflict {
    if c.used && c.armed && c.mac == mac then c.(armed := false) else c
  }

  function Disarmed(cs: seq<Conflict>, mac: Mac): (r: seq<Conflict>)
    ensures |r| == |cs|
    ensures forall k | 0 <= k < |cs| :: r[k] == Disarm(cs[k], mac)
  {
    seq(|cs|, k requires 0 <= k < |cs| => Disarm(cs[k], mac))
  }

  predicate CanPardon(q: Tracker, mac: Mac) {
    mac !in q.exempt && |q.exempt| < SLOTS
  }

  /** Pardons one client, or takes every pardon back. */
  function Clear(q: Tracker, mac: Option<Mac>): (r: Tracker)
    requires |q.conflicts| == SLOTS
    ensures |r.conflicts| == SLOTS
  {
    match mac
    case None => q.(exempt := [])
    case Some(m) =>
      if !CanPardon(q, m) then q
      else
        var cs := Disarmed(q.conflicts, m);
        q.(exempt := q.exempt + [m], conflicts := cs, published := Enforced(cs, q.enforce))
  }

  function Enforce(q: Tracker, on: bool): (r: Tracker)
    requires |q.conflicts| == SLOTS
    ensures |r.conflicts| == SLOTS
  {
    q.(enforce := on, published := Enforced(q.conflicts, on))
  }
}

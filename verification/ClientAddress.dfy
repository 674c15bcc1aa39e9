/** What the client tracker believes about one client's address, and since when the
    client's own traffic has vouched for it. */
module ClientAddress {
  import opened Bytes

  /** What happened to one client: another source named an address for it, or its
      own traffic was seen from one. Address 0 is "not known". */
  datatype Sighting = Told(ip: u32) | Heard(now: int, ip: u32)

  /** The event does not take the client off `ip`. */
  predicate StaysOn(s: Sighting, ip: u32) {
    s.ip == 0 || s.ip == ip
  }

  ghost predicate MovedAway(hist: seq<Sighting>, from: int, to: int, ip: u32) {
    exists k | from < k < to && 0 <= k < |hist| :: !StaysOn(hist[k], ip)
  }

  /** `since` is when the client itself was first heard on `ip` in its present stay
      there, or 0 if it has not been. */
  ghost predicate VouchedSince(hist: seq<Sighting>, ip: u32, since: int) {
    if since == 0 then NotHeard(hist, |hist|, ip)
    else exists n :: FirstHeard(hist, n, ip, since)
  }

  /** In its stay on `ip` the client has not been heard before event `n`. */
  ghost predicate NotHeard(hist: seq<Sighting>, n: nat, ip: u32) {
    forall m | 0 <= m < n <= |hist| && hist[m].Heard? && hist[m].ip == ip :: MovedAway(hist, m, n, ip)
  }

  /** At event `n` it was, for the first time, and has not moved away since. */
  ghost predicate FirstHeard(hist: seq<Sighting>, n: nat, ip: u32, since: int) {
    n < |hist| && hist[n] == Heard(since, ip) && !MovedAway(hist, n, |hist|, ip) && NotHeard(hist, n, ip)
  }

  datatype Entry = Entry(ip: u32, sinceUs: int)

  function Learn(e: Entry, ip: u32): Entry {
    if ip == 0 || ip == e.ip then e else Entry(ip, 0)
  }

  function Note(e: Entry, s: Sighting): Entry {
    var e1 := Learn(e, s.ip);
    if s.Heard? && e1.sinceUs == 0 && e1.ip == s.ip then Entry(e1.ip, s.now) else e1
  }

  /** The record after a whole history; a new one knows no address. */
  function Noted(hist: seq<Sighting>): Entry {
    if hist == [] then Entry(0, 0) else Note(Noted(hist[..|hist| - 1]), hist[|hist| - 1])
  }

  /** Timestamps are not zero. */
  predicate Timed(hist: seq<Sighting>) {
    forall k | 0 <= k < |hist| && hist[k].Heard? :: hist[k].now != 0
  }

  lemma AwayExtends(hist: seq<Sighting>, s: Sighting, from: int, to: int, ip: u32)
    requires to <= |hist|
    ensures MovedAway(hist + [s], from, to, ip) <==> MovedAway(hist, from, to, ip)
    ensures MovedAway(hist, from, |hist|, ip) ==> MovedAway(hist + [s], from, |hist| + 1, ip)
    ensures from < |hist| && !StaysOn(s, ip) ==> MovedAway(hist + [s], from, |hist| + 1, ip)
    ensures StaysOn(s, ip) && MovedAway(hist + [s], from, |hist| + 1, ip) ==> MovedAway(hist, from, |hist|, ip)
  {
    var h := hist + [s];
    assert forall k | 0 <= k < |hist| :: h[k] == hist[k];
    assert h[|hist|] == s;
  }

  lemma {:induction false} KnownAddress(hist: seq<Sighting>)
    ensures forall n | 0 <= n < |hist| && hist[n].ip != 0 && hist[n].ip != Noted(hist).ip ::
              MovedAway(hist, n, |hist|, hist[n].ip)
  {
    if hist != [] {
      var init, s := hist[..|hist| - 1], hist[|hist| - 1];
      KnownAddress(init);
      assert init + [s] == hist;
      forall n | 0 <= n < |hist| && hist[n].ip != 0 && hist[n].ip != Noted(hist).ip
        ensures MovedAway(hist, n, |hist|, hist[n].ip)
      {
        AwayExtends(init, s, n, |init|, hist[n].ip);
      }
    }
  }

  /** The stamp that decides who was first on an address means what it should: over
      any history, it is the time of the client's own first frame from its present
      address since it last moved there, and nobody else's word counts. */
  lemma {:induction false} StampIsFirstOwnFrame(hist: seq<Sighting>)
    requires Timed(hist)
    ensures Noted(hist).ip != 0 ==> VouchedSince(hist, Noted(hist).ip, Noted(hist).sinceUs)
  {
    if hist != [] {
      var init, s := hist[..|hist| - 1], hist[|hist| - 1];
      assert init + [s] == hist;
      StampIsFirstOwnFrame(init);
      KnownAddress(init);
      StepKeepsStamp(init, s);
    }
  }

  lemma NotHeardExtends(hist: seq<Sighting>, s: Sighting, n: nat, ip: u32)
    requires n <= |hist| && NotHeard(hist, n, ip)
    ensures NotHeard(hist + [s], n, ip)
  {
    forall m | 0 <= m < n && (hist + [s])[m].Heard? && (hist + [s])[m].ip == ip
      ensures MovedAway(hist + [s], m, n, ip)
    {
      AwayExtends(hist, s, m, n, ip);
    }
  }

  lemma HeardNow(hist: seq<Sighting>, now: int, ip: u32)
    requires NotHeard(hist, |hist|, ip)
    ensures FirstHeard(hist + [Heard(now, ip)], |hist|, ip, now)
  {
    NotHeardExtends(hist, Heard(now, ip), |hist|, ip);
  }

  lemma StillNotHeard(hist: seq<Sighting>, s: Sighting, ip: u32)
    requires NotHeard(hist, |hist|, ip) && !(s.Heard? && s.ip == ip)
    ensures NotHeard(hist + [s], |hist| + 1, ip)
  {
    var h := hist + [s];
    forall m | 0 <= m < |h| && h[m].Heard? && h[m].ip == ip
      ensures MovedAway(h, m, |h|, ip)
    {
      assert m < |hist| && h[m] == hist[m];
      AwayExtends(hist, s, m, |hist|, ip);
    }
  }

  lemma StillHeard(hist: seq<Sighting>, s: Sighting, n: nat, ip: u32, since: int)
    requires FirstHeard(hist, n, ip, since) && StaysOn(s, ip)
    ensures FirstHeard(hist + [s], n, ip, since)
  {
    NotHeardExtends(hist, s, n, ip);
    AwayExtends(hist, s, n, |hist|, ip);
  }

  lemma StepKeepsStamp(hist: seq<Sighting>, s: Sighting)
    requires s.Heard? ==> s.now != 0
    requires Noted(hist).ip != 0 ==> VouchedSince(hist, Noted(hist).ip, Noted(hist).sinceUs)
    requires forall n | 0 <= n < |hist| && hist[n].ip != 0 && hist[n].ip != Noted(hist).ip ::
               MovedAway(hist, n, |hist|, hist[n].ip)
    ensures var e := Note(Noted(hist), s); e.ip != 0 ==> VouchedSince(hist + [s], e.ip, e.sinceUs)
  {
    var was := Noted(hist);
    var e := Note(was, s);
    if e.ip != 0 {
      if e.ip == was.ip && was.sinceUs != 0 {
        var n :| FirstHeard(hist, n, e.ip, was.sinceUs);
        StillHeard(hist, s, n, e.ip, was.sinceUs);
      } else {
        assert NotHeard(hist, |hist|, e.ip);
        if s.Heard? && s.ip == e.ip {
          HeardNow(hist, s.now, e.ip);
        } else {
          StillNotHeard(hist, s, e.ip);
        }
      }
    }
  }

  class ClientEntry {
    var ip: u32
    var ipSinceUs: int
    /** Everything that ever happened to it. */
    ghost var hist: seq<Sighting>

    ghost predicate Valid()
      reads this
    {
      Entry(ip, ipSinceUs) == Noted(hist)
    }

    constructor ()
      ensures Valid() && hist == []
    {
      ip, ipSinceUs, hist := 0, 0, [];
    }

    method Assign(newIp: u32)
      modifies this`ip, this`ipSinceUs
      ensures Entry(ip, ipSinceUs) == Learn(old(Entry(ip, ipSinceUs)), newIp)
    {
      if newIp == 0 || newIp == ip {
        return;
      }
      ip, ipSinceUs := newIp, 0;
    }

    /** Another source names an address. */
    method UpdateIp(newIp: u32)
      requires Valid()
      modifies this
      ensures Valid() && hist == old(hist) + [Told(newIp)]
    {
      Assign(newIp);
      hist := hist + [Told(newIp)];
      assert hist[..|hist| - 1] == old(hist);
    }

    /** A frame of its own; true if the DHCP server is to be told of a new address. */
    method AccountTraffic(now: int, observed: u32) returns (isNew: bool)
      requires Valid()
      modifies this
      ensures Valid() && hist == old(hist) + [Heard(now, observed)]
      ensures isNew <==> old(ip) != observed
    {
      isNew := ip != observed;
      Assign(observed);
      if ipSinceUs == 0 && ip == observed {
        ipSinceUs := now;
      }
      hist := hist + [Heard(now, observed)];
      assert hist[..|hist| - 1] == old(hist);
    }
  }
}

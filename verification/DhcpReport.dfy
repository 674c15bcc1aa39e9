/** The lease table as other parts of the firmware see it. */
module DhcpReport {
  import opened Bytes
  import opened DhcpTable
  import opened DhcpGrant
  import opened DhcpFlash
  import opened DhcpEvents

  datatype LeaseInfo = LeaseInfo(
    mac: Mac,
    ip: u32,
    observedIp: u32,
    expiresInS: nat,
    bootsSinceSeen: nat,
    savedIp: u32,
    savedObservedIp: u32,
    stored: bool)

  predicate Listed(e: Lease) {
    e.inUse && (e.ip != 0 || e.observedIp != 0)
  }

  function InfoOf(e: Lease, bootSeq: u32, now: int): LeaseInfo {
    LeaseInfo(
      e.mac, e.ip, e.observedIp,
      if e.expiresUs > now then (e.expiresUs - now) / US_PER_S else 0,
      if SeenThisBoot(e, bootSeq) then 0 else bootSeq - e.lastSeenSeq,
      e.savedIp, e.savedObservedIp,
      e.savedIp == e.ip && e.savedObservedIp == Persisted(e))
  }

  /** The report on the first `n` slots. */
  function Report(st: Server, now: int, n: nat): (r: seq<LeaseInfo>)
    requires n <= |st.leases|
    ensures |r| <= n
  {
    if n == 0 then []
    else if Listed(st.leases[n - 1]) then
      Report(st, now, n - 1) + [InfoOf(st.leases[n - 1], st.bootSeq, now)]
    else Report(st, now, n - 1)
  }

  ghost predicate DistinctMacs(infos: seq<LeaseInfo>) {
    forall i, j | 0 <= i < j < |infos| :: infos[i].mac != infos[j].mac
  }

  /** The line is what is reported of one of the first `n` slots. */
  ghost predicate OfSlot(st: Server, now: int, n: nat, x: LeaseInfo)
    requires n <= |st.leases|
  {
    exists k | 0 <= k < n :: Listed(st.leases[k]) && x == InfoOf(st.leases[k], st.bootSeq, now)
  }

  lemma {:induction false} ReportSound(st: Server, now: int, n: nat)
    requires n <= |st.leases|
    ensures forall x | x in Report(st, now, n) :: OfSlot(st, now, n, x)
  {
    if n > 0 {
      ReportSound(st, now, n - 1);
      forall x | x in Report(st, now, n)
        ensures OfSlot(st, now, n, x)
      {
        if x in Report(st, now, n - 1) {
          assert OfSlot(st, now, n - 1, x);
        }
      }
    }
  }

  /** One entry per client, which is what the conflict tracker counts on. */
  lemma {:induction false} ReportDistinct(st: Server, now: int, n: nat)
    requires n <= |st.leases| && Distinct(st.leases)
    ensures DistinctMacs(Report(st, now, n))
  {
    if n > 0 {
      ReportDistinct(st, now, n - 1);
      ReportSound(st, now, n - 1);
      var prev := Report(st, now, n - 1);
      forall i | 0 <= i < |prev| && Listed(st.leases[n - 1])
        ensures prev[i].mac != st.leases[n - 1].mac
      {
        assert prev[i] in prev;
        assert OfSlot(st, now, n - 1, prev[i]);
      }
    }
  }

  /** A line reported as stored has exactly its record in flash; the one exception is a
      client with no lease that is cut off, of which there is nothing to store. */
  lemma StoredMeansInFlash(sys: System, now: int, x: LeaseInfo)
    requires SystemOk(sys) && x in Report(sys.server, now, MAX_LEASES) && x.stored
    ensures var rs := FlashRecords(sys.flash);
            || (exists n | 0 <= n < |rs| ::
                  rs[n].mac == x.mac && rs[n].ip == x.ip && rs[n].observedIp == x.savedObservedIp)
            || (x.ip == 0 && x.savedObservedIp == 0
                && exists k | 0 <= k < MAX_LEASES ::
                     sys.server.leases[k].mac == x.mac && sys.server.leases[k].quarantined)
    ensures x.savedObservedIp != x.observedIp ==>
              x.savedObservedIp == 0
              && exists k | 0 <= k < MAX_LEASES ::
                   sys.server.leases[k].mac == x.mac && sys.server.leases[k].quarantined
  {
    ReportSound(sys.server, now, MAX_LEASES);
    assert OfSlot(sys.server, now, MAX_LEASES, x);
    var k :| 0 <= k < MAX_LEASES && Listed(sys.server.leases[k])
             && x == InfoOf(sys.server.leases[k], sys.server.bootSeq, now);
    assert SavedAs(sys.server.leases[k], FlashRecords(sys.flash));
  }
}

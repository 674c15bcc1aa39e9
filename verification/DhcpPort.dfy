/**
 Which port a DHCP client's last message came in on: a four-slot record that
 forgets the client heard from longest ago, against the full history it stands for.
 */
module DhcpPort {
  import opened Bytes

  const SLOTS: nat := 4
  const WINDOW_US: int := 5_000_000

  /** `seenUs` 0 is a slot that has never been written. */
  datatype Note = Note(mac: Mac, isWifi: bool, seenUs: int)

  const BLANK := Note(NO_MAC, false, 0)

  predicate Of(n: Note, mac: Mac) {
    n.seenUs != 0 && n.mac == mac
  }

  /** The first of the least recently written among the first `n` slots. */
  function Oldest(slots: seq<Note>, n: nat): (r: nat)
    requires 0 < n <= |slots|
    ensures r < n && forall k | 0 <= k < n :: slots[r].seenUs <= slots[k].seenUs
  {
    if n == 1 then 0
    else
      var r := Oldest(slots, n - 1);
      if slots[n - 1].seenUs < slots[r].seenUs then n - 1 else r
  }

  function SlotOf(slots: seq<Note>, mac: Mac, i: nat): (r: nat)
    requires i <= |slots|
    ensures r == |slots| || (i <= r < |slots| && Of(slots[r], mac))
    ensures forall k | i <= k < r :: !Of(slots[k], mac)
    decreases |slots| - i
  {
    if i == |slots| || Of(slots[i], mac) then i else SlotOf(slots, mac, i + 1)
  }

  function Noted(slots: seq<Note>, note: Note): (r: seq<Note>)
    requires |slots| == SLOTS
    ensures |r| == SLOTS
  {
    var own := SlotOf(slots, note.mac, 0);
    slots[(if own < SLOTS then own else Oldest(slots, SLOTS)) := note]
  }

  predicate OnWiredPort(slots: seq<Note>, mac: Mac, now: int)
    requires |slots| == SLOTS
  {
    var own := SlotOf(slots, mac, 0);
    own < SLOTS && !slots[own].isWifi && now - slots[own].seenUs <= WINDOW_US
  }

  // ---- against the full history ----

  ghost predicate Increasing(hist: seq<Note>) {
    && (forall t | 0 <= t < |hist| :: hist[t].seenUs > 0)
    && (forall t, u | 0 <= t < u < |hist| :: hist[t].seenUs < hist[u].seenUs)
  }

  /** Note `t` is the last one about `mac`. */
  ghost predicate Latest(hist: seq<Note>, t: int, mac: Mac) {
    && 0 <= t < |hist| && hist[t].mac == mac
    && forall u | t < u < |hist| :: hist[u].mac != mac
  }

  /** Each client has at most one slot, holding its latest note; a client without
      one was last heard before every slot was written. */
  ghost predicate Agrees(slots: seq<Note>, hist: seq<Note>) {
    && |slots| == SLOTS && Increasing(hist)
    && (forall i | 0 <= i < SLOTS && slots[i].seenUs != 0 ::
          exists t :: Latest(hist, t, slots[i].mac) && hist[t] == slots[i])
    && (forall i, j | 0 <= i < j < SLOTS && slots[i].seenUs != 0 && slots[j].seenUs != 0 ::
          slots[i].mac != slots[j].mac)
    && (forall t, mac | Latest(hist, t, mac) && SlotOf(slots, mac, 0) == SLOTS ::
          forall i | 0 <= i < SLOTS :: slots[i].seenUs > hist[t].seenUs)
  }

  lemma LatestUnique(hist: seq<Note>, t: int, u: int, mac: Mac)
    requires Latest(hist, t, mac) && Latest(hist, u, mac)
    ensures t == u
  {
  }

  lemma LatestExtends(hist: seq<Note>, note: Note, t: int, mac: Mac)
    ensures Latest(hist + [note], t, mac) <==>
            if mac == note.mac then t == |hist| else Latest(hist, t, mac)
  {
    var h := hist + [note];
    if mac != note.mac && Latest(h, t, mac) {
      assert forall u | t < u < |hist| :: h[u] == hist[u];
    }
    if mac != note.mac && Latest(hist, t, mac) {
      assert forall u | t < u < |h| :: h[u].mac != mac;
    }
    if mac == note.mac && Latest(h, t, mac) {
      assert h[|hist|].mac == mac;
    }
  }

  lemma NotedIncreasing(hist: seq<Note>, note: Note)
    requires Increasing(hist) && note.seenUs > 0
    requires hist != [] ==> hist[|hist| - 1].seenUs < note.seenUs
    ensures Increasing(hist + [note])
    ensures forall t | 0 <= t < |hist| :: hist[t].seenUs < note.seenUs
  {
  }

  lemma NotedKeepsSlots(slots: seq<Note>, hist: seq<Note>, note: Note, i: nat)
    requires Agrees(slots, hist) && i < SLOTS && Noted(slots, note)[i].seenUs != 0
    ensures var s := Noted(slots, note)[i];
            exists t :: Latest(hist + [note], t, s.mac) && (hist + [note])[t] == s
  {
    var s := Noted(slots, note)[i];
    if s == note {
      LatestExtends(hist, note, |hist|, note.mac);
      assert Latest(hist + [note], |hist|, s.mac);
    } else {
      assert s == slots[i] && !Of(s, note.mac);
      var t :| Latest(hist, t, s.mac) && hist[t] == s;
      LatestExtends(hist, note, t, s.mac);
      assert (hist + [note])[t] == s;
    }
  }

  lemma NotedKeepsAbsent(slots: seq<Note>, hist: seq<Note>, note: Note, t: int, mac: Mac)
    requires Agrees(slots, hist) && (forall u | 0 <= u < |hist| :: hist[u].seenUs < note.seenUs)
    requires Latest(hist + [note], t, mac) && SlotOf(Noted(slots, note), mac, 0) == SLOTS
    requires note.seenUs > 0
    ensures forall i | 0 <= i < SLOTS :: Noted(slots, note)[i].seenUs > (hist + [note])[t].seenUs
  {
    var r := Noted(slots, note);
    var own := SlotOf(slots, note.mac, 0);
    var at := if own < SLOTS then own else Oldest(slots, SLOTS);
    assert r[at] == note && !Of(r[at], mac);
    LatestExtends(hist, note, t, mac);
    var was := SlotOf(slots, mac, 0);
    if was < SLOTS {
      assert Of(slots[was], mac) && !Of(r[was], mac);
      assert was == at;
      var u :| Latest(hist, u, slots[at].mac) && hist[u] == slots[at];
      LatestUnique(hist, t, u, mac);
      OldestIsStrict(slots, hist, at);
    }
  }

  /** Distinct slots were written at distinct times. */
  lemma OldestIsStrict(slots: seq<Note>, hist: seq<Note>, at: nat)
    requires Agrees(slots, hist) && at < SLOTS && slots[at].seenUs != 0
    requires forall k | 0 <= k < SLOTS :: slots[at].seenUs <= slots[k].seenUs
    ensures forall k | 0 <= k < SLOTS && k != at :: slots[at].seenUs < slots[k].seenUs
  {
    forall k | 0 <= k < SLOTS && k != at
      ensures slots[at].seenUs != slots[k].seenUs
    {
      var t :| Latest(hist, t, slots[at].mac) && hist[t] == slots[at];
      assert hist[t].seenUs > 0;
      var u :| Latest(hist, u, slots[k].mac) && hist[u] == slots[k];
      assert slots[at].mac != slots[k].mac;
      assert t < u || u < t;
    }
  }

  lemma NotedKeepsAgreement(slots: seq<Note>, hist: seq<Note>, note: Note)
    requires Agrees(slots, hist) && note.seenUs > 0
    requires hist != [] ==> hist[|hist| - 1].seenUs < note.seenUs
    ensures Agrees(Noted(slots, note), hist + [note])
  {
    NotedIncreasing(hist, note);
    var r, h := Noted(slots, note), hist + [note];
    forall i | 0 <= i < SLOTS && r[i].seenUs != 0
      ensures exists t :: Latest(h, t, r[i].mac) && h[t] == r[i]
    {
      NotedKeepsSlots(slots, hist, note, i);
    }
    forall t, mac | Latest(h, t, mac) && SlotOf(r, mac, 0) == SLOTS
      ensures forall i | 0 <= i < SLOTS :: r[i].seenUs > h[t].seenUs
    {
      NotedKeepsAbsent(slots, hist, note, t, mac);
    }
  }

  lemma BlankAgrees()
    ensures Agrees(seq(SLOTS, _ => BLANK), [])
  {
    var slots := seq(SLOTS, _ => BLANK);
    assert forall i | 0 <= i < SLOTS :: slots[i] == BLANK;
  }

  /** A yes is always right: the client's latest frame came over the cable, within
      the window. */
  lemma YesIsRight(slots: seq<Note>, hist: seq<Note>, mac: Mac, now: int)
    requires Agrees(slots, hist) && OnWiredPort(slots, mac, now)
    ensures exists t :: Latest(hist, t, mac) && !hist[t].isWifi && now - hist[t].seenUs <= WINDOW_US
  {
    var own := SlotOf(slots, mac, 0);
    var t :| Latest(hist, t, slots[own].mac) && hist[t] == slots[own];
  }

  ghost function ClientsSince(hist: seq<Note>, t: nat): set<Mac>
    requires t < |hist|
  {
    set u | t < u < |hist| :: hist[u].mac
  }

  /** And it is not forgotten while at most three other clients were heard since. */
  lemma YesIsRemembered(slots: seq<Note>, hist: seq<Note>, mac: Mac, t: nat, now: int)
    requires Agrees(slots, hist) && Latest(hist, t, mac)
    requires !hist[t].isWifi && now - hist[t].seenUs <= WINDOW_US
    requires |ClientsSince(hist, t)| <= 3
    ensures OnWiredPort(slots, mac, now)
  {
    var own := SlotOf(slots, mac, 0);
    if own < SLOTS {
      var u :| Latest(hist, u, slots[own].mac) && hist[u] == slots[own];
      LatestUnique(hist, t, u, mac);
    } else {
      FourHeardSince(slots, hist, mac, t);
    }
  }

  lemma FourHeardSince(slots: seq<Note>, hist: seq<Note>, mac: Mac, t: nat)
    requires Agrees(slots, hist) && Latest(hist, t, mac) && SlotOf(slots, mac, 0) == SLOTS
    ensures |ClientsSince(hist, t)| >= 4
  {
    forall i | 0 <= i < SLOTS
      ensures slots[i].mac in ClientsSince(hist, t)
    {
      assert slots[i].seenUs > hist[t].seenUs > 0;
      var u :| Latest(hist, u, slots[i].mac) && hist[u] == slots[i];
      assert t < u;
    }
    var four := {slots[0].mac, slots[1].mac, slots[2].mac, slots[3].mac};
    FourDistinct(slots[0].mac, slots[1].mac, slots[2].mac, slots[3].mac);
    SubsetSize(four, ClientsSince(hist, t));
  }

  lemma FourDistinct<T>(a: T, b: T, c: T, d: T)
    requires a != b && a != c && a != d && b != c && b != d && c != d
    ensures |{a, b, c, d}| == 4
  {
    assert {a, b, c, d} == {a, b, c} + {d} && {a, b, c} == {a, b} + {c};
  }

  lemma {:induction false} SubsetSize<T>(a: set<T>, b: set<T>)
    requires a <= b
    ensures |a| <= |b|
  {
    if a != {} {
      var x :| x in a;
      SubsetSize(a - {x}, b - {x});
    }
  }

  class PortRecord {
    const slots: array<Note>
    ghost var hist: seq<Note>

    ghost predicate Valid()
      reads this, slots
    {
      slots.Length == SLOTS && Agrees(slots[..], hist)
    }

    constructor ()
      ensures Valid() && hist == [] && fresh(slots)
    {
      slots := new Note[SLOTS](_ => BLANK);
      hist := [];
      new;
      BlankAgrees();
      assert slots[..] == seq(SLOTS, _ => BLANK);
    }

    method NoteDhcpPort(mac: Mac, isWifi: bool, now: int)
      requires Valid() && now > 0 && (hist != [] ==> hist[|hist| - 1].seenUs < now)
      modifies this, slots
      ensures Valid() && hist == old(hist) + [Note(mac, isWifi, now)]
      ensures slots[..] == Noted(old(slots[..]), Note(mac, isWifi, now))
    {
      NotedKeepsAgreement(slots[..], hist, Note(mac, isWifi, now));
      hist := hist + [Note(mac, isWifi, now)];
      WriteNote(mac, isWifi, now);
    }

    /** Into the client's own slot, or else into the oldest. */
    method WriteNote(mac: Mac, isWifi: bool, now: int)
      requires slots.Length == SLOTS
      modifies slots
      ensures slots[..] == Noted(old(slots[..]), Note(mac, isWifi, now))
    {
      var oldest := 0;
      for i := 0 to SLOTS
        invariant slots[..] == old(slots[..])
        invariant i == 0 ==> oldest == 0
        invariant i > 0 ==> oldest == Oldest(slots[..], i)
        invariant SlotOf(slots[..], mac, i) == SlotOf(slots[..], mac, 0)
      {
        if slots[i].seenUs != 0 && slots[i].mac == mac {
          slots[i] := Note(mac, isWifi, now);
          return;
        }
        if slots[i].seenUs < slots[oldest].seenUs {
          oldest := i;
        }
      }
      slots[oldest] := Note(mac, isWifi, now);
    }

    method MacOnWiredPort(mac: Mac, now: int) returns (wired: bool)
      requires Valid()
      ensures wired == OnWiredPort(slots[..], mac, now)
    {
      for i := 0 to SLOTS
        invariant SlotOf(slots[..], mac, i) == SlotOf(slots[..], mac, 0)
      {
        if slots[i].seenUs == 0 || slots[i].mac != mac {
          continue;
        }
        return !slots[i].isWifi && now - slots[i].seenUs <= WINDOW_US;
      }
      return false;
    }
  }
}

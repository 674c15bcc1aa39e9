/**
 The reservation table as it is stored in flash: the versioned byte format, what
 a save writes, and what a boot makes of whatever bytes it finds.
 */
module DhcpFlash {
  import opened Bytes
  import opened DhcpTable
  import opened DhcpGrant

  const STORE_MAGIC: u32 := 0x4C504344
  const STORE_VERSION: u16 := 3
  const FORGET_AFTER_BOOTS: nat := 5

  /** Size of the buffer a blob is read into: header plus a full table. */
  const BLOB_MAX: nat := 12 + MAX_LEASES * 18

  datatype Record = Record(mac: Mac, ip: u32, observedIp: u32, lastSeenSeq: u32)

  datatype Image = Image(version: u16, bootSeq: u32, records: seq<Record>)

  // ---- the byte format ----

  function HdrLen(version: u16): nat {
    if version >= 3 then 12 else 8
  }

  function RecSize(version: u16): nat {
    if version == 1 then 10 else if version == 2 then 14 else 18
  }

  /** Where record `i` starts. Spelt out per version to stay linear. */
  function RecAt(version: u16, i: nat): nat
  {
    if version == 1 then 8 + 10 * i
    else if version == 2 then 8 + 14 * i
    else if version >= 3 then 12 + 18 * i
    else 8 + 18 * i
  }

  /** The generation is there from version 3 on. */
  function EncodeHeader(version: u16, count: u16, bootSeq: u32): (b: seq<byte>)
    ensures |b| == HdrLen(version)
  {
    Le(STORE_MAGIC, 4) + Le(version, 2) + Le(count, 2) + if version >= 3 then Le(bootSeq, 4) else []
  }

  function EncodeRecord(r: Record): (b: seq<byte>)
    ensures |b| == 18
  {
    r.mac + Be(r.ip, 4) + Be(r.observedIp, 4) + Le(r.lastSeenSeq, 4)
  }

  /** Each version's record is a prefix of the next one's. */
  function EncodeAs(version: u16, r: Record): (b: seq<byte>)
    ensures |b| == RecSize(version)
  {
    EncodeRecord(r)[..RecSize(version)]
  }

  function EncodeRecords(version: u16, rs: seq<Record>): (b: seq<byte>)
    ensures HdrLen(version) + |b| == RecAt(version, |rs|)
  {
    if rs == [] then [] else EncodeRecords(version, rs[..|rs| - 1]) + EncodeAs(version, rs[|rs| - 1])
  }

  function EncodeBlob(version: u16, rs: seq<Record>, bootSeq: u32): seq<byte>
    requires |rs| <= MAX_LEASES
  {
    EncodeHeader(version, |rs|, bootSeq) + EncodeRecords(version, rs)
  }

  function Encode(rs: seq<Record>, bootSeq: u32): seq<byte>
    requires |rs| <= MAX_LEASES
  {
    EncodeBlob(STORE_VERSION, rs, bootSeq)
  }

  /** One record read through the prefix its version wrote, over zeroes. */
  function DecodeRecord(b: seq<byte>, off: nat, version: u16): Record
    requires off + RecSize(version) <= |b|
  {
    Record(
      Slice(b, off, 6),
      FromBe(Slice(b, off + 6, 4)),
      if version == 1 then 0 else FromBe(Slice(b, off + 10, 4)),
      if version <= 2 && version != 0 then 0 else FromLe(Slice(b, off + 14, 4)))
  }

  function DecodeRecords(b: seq<byte>, version: u16, n: nat): (rs: seq<Record>)
    requires RecAt(version, n) <= |b|
    ensures |rs| == n
    ensures forall i | 0 <= i < n :: RecAt(version, i) + RecSize(version) <= |b|
                                     && rs[i] == DecodeRecord(b, RecAt(version, i), version)
  {
    if n == 0 then []
    else
      assert RecAt(version, n) == RecAt(version, n - 1) + RecSize(version);
      DecodeRecords(b, version, n - 1) + [DecodeRecord(b, RecAt(version, n - 1), version)]
  }

  /** What a stored byte string means, or None if this build will not use it. */
  function Parse(b: seq<byte>): (r: Option<Image>)
    ensures r.Some? ==> |r.value.records| <= MAX_LEASES
  {
    if |b| > BLOB_MAX || |b| < 8 then None
    else
      var version := FromLe(Slice(b, 4, 2));
      var count := FromLe(Slice(b, 6, 2));
      if FromLe(Slice(b, 0, 4)) != STORE_MAGIC || version < 1 || version > STORE_VERSION then None
      else if |b| < HdrLen(version) then None
      else if count > MAX_LEASES || |b| < RecAt(version, count) then None
      else
        var bootSeq := if version >= 3 then FromLe(Slice(b, 8, 4)) else 0;
        Some(Image(version, bootSeq, DecodeRecords(b, version, count)))
  }

  // ---- round trip ----

  /** What a record comes back as from a blob of the given version. */
  function AsOf(version: u16, r: Record): Record {
    if version == 1 then r.(observedIp := 0, lastSeenSeq := 0)
    else if version == 2 then r.(lastSeenSeq := 0)
    else r
  }

  function AllAsOf(version: u16, rs: seq<Record>): (r: seq<Record>)
    ensures |r| == |rs| && forall k | 0 <= k < |rs| :: r[k] == AsOf(version, rs[k])
  {
    seq(|rs|, k requires 0 <= k < |rs| => AsOf(version, rs[k]))
  }

  lemma RecordFields(r: Record)
    ensures var e := EncodeRecord(r);
            && Slice(e, 0, 6) == r.mac && Slice(e, 6, 4) == Be(r.ip, 4)
            && Slice(e, 10, 4) == Be(r.observedIp, 4) && Slice(e, 14, 4) == Le(r.lastSeenSeq, 4)
  {
    var e := EncodeRecord(r);
    assert e[10..14] == Be(r.observedIp, 4);
    assert e[14..18] == Le(r.lastSeenSeq, 4);
  }

  /** A field inside the prefix that was stored is read as it was written. */
  lemma FieldInPlace(b: seq<byte>, off: nat, version: u16, r: Record, at: nat, n: nat)
    requires off + RecSize(version) <= |b| && Slice(b, off, RecSize(version)) == EncodeAs(version, r)
    requires at + n <= RecSize(version)
    ensures Slice(b, off + at, n) == Slice(EncodeRecord(r), at, n)
  {
    SliceOfSlice(b, off, RecSize(version), at, n);
    SliceOfSlice(EncodeRecord(r), 0, RecSize(version), at, n);
  }

  lemma RecordRoundTrip(b: seq<byte>, off: nat, version: u16, r: Record)
    requires 1 <= version <= STORE_VERSION
    requires off + RecSize(version) <= |b| && Slice(b, off, RecSize(version)) == EncodeAs(version, r)
    ensures DecodeRecord(b, off, version) == AsOf(version, r)
  {
    RecordFields(r);
    FieldInPlace(b, off, version, r, 0, 6);
    FieldInPlace(b, off, version, r, 6, 4);
    BeRoundTrip(r.ip, 4);
    if version >= 2 {
      FieldInPlace(b, off, version, r, 10, 4);
      BeRoundTrip(r.observedIp, 4);
    }
    if version >= 3 {
      FieldInPlace(b, off, version, r, 14, 4);
      LeRoundTrip(r.lastSeenSeq, 4);
    }
  }

  lemma {:induction false} RecordInPlace(hdr: seq<byte>, version: u16, rs: seq<Record>, i: nat)
    requires 1 <= version <= STORE_VERSION && |hdr| == HdrLen(version) && i < |rs|
    ensures RecAt(version, i) + RecSize(version) <= |hdr + EncodeRecords(version, rs)|
    ensures Slice(hdr + EncodeRecords(version, rs), RecAt(version, i), RecSize(version)) == EncodeAs(version, rs[i])
  {
    var init, last := EncodeRecords(version, rs[..|rs| - 1]), EncodeAs(version, rs[|rs| - 1]);
    var b := hdr + EncodeRecords(version, rs);
    assert b == hdr + init + last;
    if i < |rs| - 1 {
      RecordInPlace(hdr, version, rs[..|rs| - 1], i);
      assert Slice(b, RecAt(version, i), RecSize(version)) == Slice(hdr + init, RecAt(version, i), RecSize(version));
    }
  }

  ghost predicate DecodesTo(b: seq<byte>, version: u16, i: nat, r: Record) {
    RecAt(version, i) + RecSize(version) <= |b| && DecodeRecord(b, RecAt(version, i), version) == r
  }

  lemma RecordDecodes(hdr: seq<byte>, version: u16, rs: seq<Record>, i: nat)
    requires 1 <= version <= STORE_VERSION && |hdr| == HdrLen(version) && i < |rs|
    ensures DecodesTo(hdr + EncodeRecords(version, rs), version, i, AsOf(version, rs[i]))
  {
    RecordInPlace(hdr, version, rs, i);
    RecordRoundTrip(hdr + EncodeRecords(version, rs), RecAt(version, i), version, rs[i]);
  }

  lemma DecodeOneMore(b: seq<byte>, version: u16, n: nat, r: Record)
    requires n > 0 && RecAt(version, n) <= |b| && DecodesTo(b, version, n - 1, r)
    ensures DecodeRecords(b, version, n) == DecodeRecords(b, version, n - 1) + [r]
  {
  }

  lemma {:induction false} DecodeEach(b: seq<byte>, version: u16, n: nat, rs: seq<Record>)
    requires RecAt(version, n) <= |b| && n <= |rs|
    requires forall i | 0 <= i < n :: DecodesTo(b, version, i, rs[i])
    ensures DecodeRecords(b, version, n) == rs[..n]
  {
    if n > 0 {
      DecodeOneMore(b, version, n, rs[n - 1]);
      DecodeEach(b, version, n - 1, rs);
      assert rs[..n] == rs[..n - 1] + [rs[n - 1]];
    }
  }

  lemma RecordsRoundTrip(hdr: seq<byte>, version: u16, rs: seq<Record>)
    requires 1 <= version <= STORE_VERSION && |hdr| == HdrLen(version)
    ensures DecodeRecords(hdr + EncodeRecords(version, rs), version, |rs|) == AllAsOf(version, rs)
  {
    var b, back := hdr + EncodeRecords(version, rs), AllAsOf(version, rs);
    forall i | 0 <= i < |rs|
      ensures DecodesTo(b, version, i, back[i])
    {
      RecordDecodes(hdr, version, rs, i);
    }
    DecodeEach(b, version, |rs|, back);
    assert back[..|rs|] == back;
  }

  lemma HeaderRoundTrip(version: u16, count: u16, bootSeq: u32, c: seq<byte>)
    ensures var b := EncodeHeader(version, count, bootSeq) + c;
            && FromLe(Slice(b, 0, 4)) == STORE_MAGIC
            && FromLe(Slice(b, 4, 2)) == version
            && FromLe(Slice(b, 6, 2)) == count
            && (version >= 3 ==> FromLe(Slice(b, 8, 4)) == bootSeq)
  {
    var b := EncodeHeader(version, count, bootSeq) + c;
    assert Slice(b, 0, 4) == Le(STORE_MAGIC, 4);
    assert Slice(b, 4, 2) == Le(version, 2);
    assert Slice(b, 6, 2) == Le(count, 2);
    assert version >= 3 ==> Slice(b, 8, 4) == Le(bootSeq, 4);
    LeRoundTrip(STORE_MAGIC, 4);
    LeRoundTrip(version, 2);
    LeRoundTrip(count, 2);
    LeRoundTrip(bootSeq, 4);
  }

  lemma ParseOf(b: seq<byte>, version: u16, count: u16, bootSeq: u32)
    requires 1 <= version <= STORE_VERSION && count <= MAX_LEASES
    requires 8 <= |b| <= BLOB_MAX && |b| == RecAt(version, count)
    requires FromLe(Slice(b, 0, 4)) == STORE_MAGIC
    requires FromLe(Slice(b, 4, 2)) == version && FromLe(Slice(b, 6, 2)) == count
    requires version >= 3 ==> FromLe(Slice(b, 8, 4)) == bootSeq
    ensures Parse(b) == Some(Image(version, if version >= 3 then bootSeq else 0, DecodeRecords(b, version, count)))
  {
  }

  /** A blob of any version is read back record for record, without what that version
      does not store. */
  lemma AnyBlobRoundTrip(version: u16, rs: seq<Record>, bootSeq: u32)
    requires 1 <= version <= STORE_VERSION && |rs| <= MAX_LEASES
    ensures |EncodeBlob(version, rs, bootSeq)| <= BLOB_MAX
    ensures Parse(EncodeBlob(version, rs, bootSeq)) ==
            Some(Image(version, if version >= 3 then bootSeq else 0, AllAsOf(version, rs)))
  {
    var hdr, body := EncodeHeader(version, |rs|, bootSeq), EncodeRecords(version, rs);
    HeaderRoundTrip(version, |rs|, bootSeq, body);
    RecordsRoundTrip(hdr, version, rs);
    assert |hdr + body| == RecAt(version, |rs|) <= BLOB_MAX;
    ParseOf(hdr + body, version, |rs|, bootSeq);
  }

  /** A blob this code writes is read back as exactly what was written. */
  lemma BlobRoundTrip(rs: seq<Record>, bootSeq: u32)
    requires |rs| <= MAX_LEASES
    ensures |Encode(rs, bootSeq)| <= BLOB_MAX
    ensures Parse(Encode(rs, bootSeq)) == Some(Image(STORE_VERSION, bootSeq, rs))
  {
    AnyBlobRoundTrip(STORE_VERSION, rs, bootSeq);
    assert AllAsOf(STORE_VERSION, rs) == rs;
  }

  // ---- saving ----

  /** What this entry's observed address looks like in flash: a client cut off
      for holding a duplicate address contributes nothing. */
  function Persisted(e: Lease): u32 {
    if e.quarantined then 0 else e.observedIp
  }

  predicate Storable(e: Lease) {
    e.inUse && (e.ip != 0 || Persisted(e) != 0)
  }

  function RecordOf(e: Lease): Record {
    Record(e.mac, e.ip, Persisted(e), e.lastSeenSeq)
  }

  /** The records of the first `n` slots, in slot order. */
  function Records(ls: seq<Lease>, n: nat): (rs: seq<Record>)
    requires n <= |ls|
    ensures |rs| <= n
  {
    if n == 0 then []
    else if Storable(ls[n - 1]) then Records(ls, n - 1) + [RecordOf(ls[n - 1])]
    else Records(ls, n - 1)
  }

  lemma AppendRecord(rs: seq<Record>, r: Record)
    ensures EncodeRecords(STORE_VERSION, rs + [r]) == EncodeRecords(STORE_VERSION, rs) + EncodeRecord(r)
  {
    assert (rs + [r])[..|rs|] == rs;
  }

  function TableBlob(st: Server): seq<byte>
    requires |st.leases| == MAX_LEASES
  {
    Encode(Records(st.leases, MAX_LEASES), st.bootSeq)
  }

  function MarkSaved(e: Lease): Lease {
    if e.inUse then e.(savedIp := e.ip, savedObservedIp := Persisted(e)) else e
  }

  /** The table after a write that landed. A failed one leaves it as it was. */
  function Saved(st: Server): (r: Server)
    ensures |r.leases| == |st.leases|
    ensures forall k | 0 <= k < |st.leases| :: r.leases[k] == MarkSaved(st.leases[k])
  {
    st.(leases := seq(|st.leases|, k requires 0 <= k < |st.leases| => MarkSaved(st.leases[k])),
        dirty := false)
  }

  // ---- loading ----

  function NextGeneration(bootSeq: u32): u32 {
    (bootSeq + 1) % U32
  }

  /** Boots since the record was last stamped. A stamp from the future is age 0. */
  function Age(r: Record, bootSeq: u32): nat {
    if bootSeq > r.lastSeenSeq then bootSeq - r.lastSeenSeq else 0
  }

  /** Not dropped for staleness. Records older than version 3 have no stamp. */
  predicate Keeps(version: u16, r: Record, bootSeq: u32) {
    version < 3 || Age(r, bootSeq) <= FORGET_AFTER_BOOTS
  }

  function LeaseOf(r: Record): Lease {
    ZERO_LEASE.(inUse := true, mac := r.mac, ip := r.ip, observedIp := r.observedIp,
                savedIp := r.ip, savedObservedIp := r.observedIp, lastSeenSeq := r.lastSeenSeq)
  }

  /** The entries restored from the first `n` records, in record order. */
  function Restored(img: Image, bootSeq: u32, n: nat): (ls: seq<Lease>)
    requires n <= |img.records|
    ensures |ls| <= n
  {
    if n == 0 then []
    else if Keeps(img.version, img.records[n - 1], bootSeq) then
      Restored(img, bootSeq, n - 1) + [LeaseOf(img.records[n - 1])]
    else Restored(img, bootSeq, n - 1)
  }

  /** Somebody else in the table claims the address this entry was seen using. */
  predicate Disputed(ls: seq<Lease>, i: nat)
    requires i < |ls|
  {
    && ls[i].observedIp != 0
    && exists j | 0 <= j < |ls| ::
         j != i && (ls[j].ip == ls[i].observedIp || ls[j].observedIp == ls[i].observedIp)
  }

  function Settle(ls: seq<Lease>, i: nat): Lease
    requires i < |ls|
  {
    if Disputed(ls, i) then ls[i].(observedIp := 0) else ls[i]
  }

  /** Every disputed half dropped, decided from the values as they were read. */
  function DropDisputed(ls: seq<Lease>): (r: seq<Lease>)
    ensures |r| == |ls|
    ensures forall i | 0 <= i < |ls| :: r[i] == Settle(ls, i)
  {
    seq(|ls|, i requires 0 <= i < |ls| => Settle(ls, i))
  }

  function Padded(ls: seq<Lease>): (r: seq<Lease>)
    requires |ls| <= MAX_LEASES
    ensures |r| == MAX_LEASES
  {
    ls + seq(MAX_LEASES - |ls|, _ => ZERO_LEASE)
  }

  const EMPTY := Server(Padded([]), [], 1, false, 0)

  function BootImage(img: Image, now: int): (st: Server)
    requires |img.records| <= MAX_LEASES
    ensures |st.leases| == MAX_LEASES
  {
    var bootSeq := NextGeneration(img.bootSeq);
    var read := Restored(img, bootSeq, |img.records|);
    var kept := DropDisputed(read);
    var st := Server(Padded(kept), [], bootSeq, false, 0);
    if kept != read || |read| < |img.records| then st.MarkDirty(now) else st
  }

  /** The server's state after a boot that found `flash`. */
  function Boot(flash: Option<seq<byte>>, now: int): (st: Server)
    ensures |st.leases| == MAX_LEASES
  {
    if flash.None? || Parse(flash.value).None? then EMPTY
    else BootImage(Parse(flash.value).value, now)
  }

  // ---- what a save and a load preserve ----

  /** `r` is what one of the first `n` slots stores. */
  ghost predicate FromSlot(ls: seq<Lease>, n: nat, r: Record)
    requires n <= |ls|
  {
    exists i | 0 <= i < n :: Storable(ls[i]) && RecordOf(ls[i]) == r
  }

  lemma {:induction false} RecordsSound(ls: seq<Lease>, n: nat)
    requires n <= |ls|
    ensures forall r | r in Records(ls, n) :: FromSlot(ls, n, r)
    ensures forall i | 0 <= i < n && Storable(ls[i]) :: RecordOf(ls[i]) in Records(ls, n)
  {
    if n > 0 {
      RecordsSound(ls, n - 1);
      forall r | r in Records(ls, n) ensures FromSlot(ls, n, r) {
        if r in Records(ls, n - 1) {
          assert FromSlot(ls, n - 1, r);
        } else {
          assert r == RecordOf(ls[n - 1]);
        }
      }
    }
  }

  /** `e` is what one of the first `n` records, not too old, restores. */
  ghost predicate FromRecord(img: Image, bootSeq: u32, n: nat, e: Lease)
    requires n <= |img.records|
  {
    exists i | 0 <= i < n :: Keeps(img.version, img.records[i], bootSeq) && LeaseOf(img.records[i]) == e
  }

  lemma {:induction false} RestoredSound(img: Image, bootSeq: u32, n: nat)
    requires n <= |img.records|
    ensures forall e | e in Restored(img, bootSeq, n) :: FromRecord(img, bootSeq, n, e)
    ensures forall i | 0 <= i < n && Keeps(img.version, img.records[i], bootSeq) ::
              LeaseOf(img.records[i]) in Restored(img, bootSeq, n)
  {
    if n > 0 {
      RestoredSound(img, bootSeq, n - 1);
      forall e | e in Restored(img, bootSeq, n) ensures FromRecord(img, bootSeq, n, e) {
        if e in Restored(img, bootSeq, n - 1) {
          assert FromRecord(img, bootSeq, n - 1, e);
        } else {
          assert e == LeaseOf(img.records[n - 1]);
        }
      }
    }
  }

  /** Records of one table name pairwise distinct clients and leased addresses. */
  ghost predicate DistinctRecords(rs: seq<Record>) {
    forall i, j | 0 <= i < j < |rs| ::
      rs[i].mac != rs[j].mac && (rs[i].ip != 0 ==> rs[i].ip != rs[j].ip)
  }

  lemma {:induction false} RecordsDistinct(ls: seq<Lease>, n: nat)
    requires n <= |ls| && Distinct(ls)
    ensures DistinctRecords(Records(ls, n))
  {
    if n > 0 {
      RecordsDistinct(ls, n - 1);
      RecordsSound(ls, n - 1);
      var prev := Records(ls, n - 1);
      forall k | 0 <= k < |prev| && Storable(ls[n - 1])
        ensures prev[k].mac != ls[n - 1].mac && (prev[k].ip != 0 ==> prev[k].ip != ls[n - 1].ip)
      {
        assert prev[k] in prev;
        var i :| 0 <= i < n - 1 && Storable(ls[i]) && RecordOf(ls[i]) == prev[k];
      }
    }
  }

  lemma {:induction false} RestoredDistinct(img: Image, bootSeq: u32, n: nat)
    requires n <= |img.records| && DistinctRecords(img.records)
    ensures Distinct(Restored(img, bootSeq, n))
  {
    if n > 0 {
      RestoredDistinct(img, bootSeq, n - 1);
      RestoredSound(img, bootSeq, n - 1);
      var prev, r := Restored(img, bootSeq, n - 1), img.records[n - 1];
      forall k | 0 <= k < |prev|
        ensures prev[k].mac != r.mac && (prev[k].ip != 0 ==> prev[k].ip != r.ip)
      {
        assert prev[k] in prev;
        var i :| 0 <= i < n - 1 && Keeps(img.version, img.records[i], bootSeq)
                 && LeaseOf(img.records[i]) == prev[k];
      }
    }
  }

  lemma SettledDistinct(read: seq<Lease>)
    requires |read| <= MAX_LEASES && Distinct(read)
    ensures Distinct(Padded(DropDisputed(read)))
  {
    var ls := Padded(DropDisputed(read));
    forall i, j | 0 <= i < j < |ls| && ls[i].inUse && ls[j].inUse
      ensures ls[i].mac != ls[j].mac && (ls[i].ip != 0 ==> ls[i].ip != ls[j].ip)
    {
      assert ls[i] == Settle(read, i) && ls[j] == Settle(read, j);
    }
  }

  lemma BootDistinct(flash: Option<seq<byte>>, now: int)
    requires flash.Some? && Parse(flash.value).Some? ==> DistinctRecords(Parse(flash.value).value.records)
    ensures Distinct(Boot(flash, now).leases)
  {
    if flash.Some? && Parse(flash.value).Some? {
      var img := Parse(flash.value).value;
      var bootSeq := NextGeneration(img.bootSeq);
      RestoredDistinct(img, bootSeq, |img.records|);
      SettledDistinct(Restored(img, bootSeq, |img.records|));
    }
  }

  /** No entry was seen on an address another entry leases or was seen on. */
  ghost predicate NoArgument(ls: seq<Lease>) {
    forall i, j | 0 <= i < |ls| && 0 <= j < |ls| && i != j && ls[i].observedIp != 0 ::
      ls[j].ip != ls[i].observedIp && ls[j].observedIp != ls[i].observedIp
  }

  lemma DroppedIsSettled(read: seq<Lease>)
    requires |read| <= MAX_LEASES
    ensures NoArgument(Padded(DropDisputed(read)))
  {
    var ls := Padded(DropDisputed(read));
    forall i, j | 0 <= i < |ls| && 0 <= j < |ls| && i != j && ls[i].observedIp != 0
      ensures ls[j].ip != ls[i].observedIp && ls[j].observedIp != ls[i].observedIp
    {
      assert i < |read| && ls[i] == Settle(read, i) == read[i];
      if j < |read| {
        assert ls[j] == Settle(read, j);
      } else {
        assert ls[j] == ZERO_LEASE;
      }
    }
  }

  /** A duplicate-address argument never survives a restart, whatever bytes are
      found in flash. */
  lemma NoArgumentAfterBoot(flash: Option<seq<byte>>, now: int)
    ensures NoArgument(Boot(flash, now).leases)
  {
    if flash.Some? && Parse(flash.value).Some? {
      var img := Parse(flash.value).value;
      DroppedIsSettled(Restored(img, NextGeneration(img.bootSeq), |img.records|));
    }
  }

  /** What a reboot makes of entry `e` of a saved table with a sane stamp. */
  ghost predicate ComesBackAs(e: Lease, b: Lease) {
    && b.inUse && b.mac == e.mac && b.ip == e.ip && b.lastSeenSeq == e.lastSeenSeq
    && (b.observedIp == Persisted(e) || b.observedIp == 0)
    && b.savedIp == e.ip && b.savedObservedIp == Persisted(e)
    && b.expiresUs == 0 && b.lastSeenUs == 0 && !b.quarantined
  }

  lemma BootOfSaved(st: Server, now: int)
    requires |st.leases| == MAX_LEASES
    ensures var rs := Records(st.leases, MAX_LEASES);
            var b := NextGeneration(st.bootSeq);
            && Boot(Some(TableBlob(st)), now).bootSeq == b
            && Boot(Some(TableBlob(st)), now).declined == []
            && Boot(Some(TableBlob(st)), now).leases
               == Padded(DropDisputed(Restored(Image(STORE_VERSION, st.bootSeq, rs), b, |rs|)))
  {
    BlobRoundTrip(Records(st.leases, MAX_LEASES), st.bootSeq);
  }

  lemma RecordComesBack(r: Record, ls: seq<Lease>, k: nat, e: Lease)
    requires k < |ls| <= MAX_LEASES && ls[k] == LeaseOf(r) && r == RecordOf(e)
    ensures ComesBackAs(e, Padded(DropDisputed(ls))[k])
    ensures e.quarantined ==> Padded(DropDisputed(ls))[k].observedIp == 0
  {
    assert Padded(DropDisputed(ls))[k] == Settle(ls, k);
  }

  /** Save, lose power, load: every storable entry stamped within five
      generations comes back with its client, address, stamp and, unless it was
      disputed, its observed address. */
  lemma ReservationsSurvive(st: Server, now: int, i: nat)
    requires |st.leases| == MAX_LEASES && i < MAX_LEASES
    requires Storable(st.leases[i])
    requires Age(RecordOf(st.leases[i]), NextGeneration(st.bootSeq)) <= FORGET_AFTER_BOOTS
    ensures exists k | 0 <= k < MAX_LEASES ::
              ComesBackAs(st.leases[i], Boot(Some(TableBlob(st)), now).leases[k])
  {
    var rs := Records(st.leases, MAX_LEASES);
    var img, bootSeq := Image(STORE_VERSION, st.bootSeq, rs), NextGeneration(st.bootSeq);
    BootOfSaved(st, now);
    RecordsSound(st.leases, MAX_LEASES);
    RestoredSound(img, bootSeq, |rs|);
    var r := RecordOf(st.leases[i]);
    var n :| 0 <= n < |rs| && rs[n] == r;
    assert Keeps(img.version, img.records[n], bootSeq);
    var read := Restored(img, bootSeq, |rs|);
    var k :| 0 <= k < |read| && read[k] == LeaseOf(r);
    RecordComesBack(r, read, k, st.leases[i]);
  }

  /** Nothing else comes back, and a client that was cut off when the table was
      saved comes back with no observed address. */
  lemma NothingInvented(st: Server, now: int, k: nat)
    requires |st.leases| == MAX_LEASES && k < MAX_LEASES
    requires Boot(Some(TableBlob(st)), now).leases[k].inUse
    ensures exists i | 0 <= i < MAX_LEASES ::
              && Storable(st.leases[i])
              && ComesBackAs(st.leases[i], Boot(Some(TableBlob(st)), now).leases[k])
              && Age(RecordOf(st.leases[i]), NextGeneration(st.bootSeq)) <= FORGET_AFTER_BOOTS
              && (st.leases[i].quarantined ==>
                    Boot(Some(TableBlob(st)), now).leases[k].observedIp == 0)
  {
    var rs := Records(st.leases, MAX_LEASES);
    var img, bootSeq := Image(STORE_VERSION, st.bootSeq, rs), NextGeneration(st.bootSeq);
    BootOfSaved(st, now);
    RestoredSound(img, bootSeq, |rs|);
    var read := Restored(img, bootSeq, |rs|);
    assert read[k] in read;
    var n :| 0 <= n < |img.records| && Keeps(img.version, img.records[n], bootSeq)
             && read[k] == LeaseOf(img.records[n]);
    RecordsSound(st.leases, MAX_LEASES);
    assert rs[n] in rs;
    var i :| 0 <= i < MAX_LEASES && Storable(st.leases[i]) && rs[n] == RecordOf(st.leases[i]);
    RecordComesBack(rs[n], read, k, st.leases[i]);
  }

  /** What entry `i` would store says it was seen on the address. */
  predicate StoresClaim(e: Lease, bootSeq: u32, ip: u32) {
    && Storable(e) && Age(RecordOf(e), bootSeq) <= FORGET_AFTER_BOOTS
    && (e.ip == ip || Persisted(e) == ip)
  }

  /** A stored observed address comes back from a save and a boot if and only if no
      other entry that comes back leases it or was seen on it. */
  lemma ObservedSurvives(st: Server, now: int, i: nat)
    requires |st.leases| == MAX_LEASES && Distinct(st.leases) && i < MAX_LEASES
    requires Persisted(st.leases[i]) != 0 && st.leases[i].inUse
    requires Age(RecordOf(st.leases[i]), NextGeneration(st.bootSeq)) <= FORGET_AFTER_BOOTS
    ensures exists k | 0 <= k < MAX_LEASES ::
              var b := Boot(Some(TableBlob(st)), now).leases[k];
              && ComesBackAs(st.leases[i], b)
              && (b.observedIp == Persisted(st.leases[i]) <==>
                    forall j | 0 <= j < MAX_LEASES && j != i ::
                      !StoresClaim(st.leases[j], NextGeneration(st.bootSeq), Persisted(st.leases[i])))
  {
    var rs := Records(st.leases, MAX_LEASES);
    var img, bootSeq := Image(STORE_VERSION, st.bootSeq, rs), NextGeneration(st.bootSeq);
    var read, r := Restored(img, bootSeq, |rs|), RecordOf(st.leases[i]);
    BootOfSaved(st, now);
    assert r in rs by {
      RecordsSound(st.leases, MAX_LEASES);
    }
    var n :| 0 <= n < |rs| && rs[n] == r;
    assert LeaseOf(r) in read by {
      RestoredSound(img, bootSeq, |rs|);
      assert Keeps(img.version, img.records[n], bootSeq);
    }
    var k :| 0 <= k < |read| && read[k] == LeaseOf(r);
    RecordComesBack(r, read, k, st.leases[i]);
    RecordsDistinct(st.leases, MAX_LEASES);
    RestoredDistinct(img, bootSeq, |rs|);
    DisputedWhenClaimed(st, read, i, k);
  }

  /** The entries restored from a saved table argue exactly when its entries do. */
  lemma DisputedWhenClaimed(st: Server, read: seq<Lease>, i: nat, k: nat)
    requires |st.leases| == MAX_LEASES && Distinct(st.leases) && i < MAX_LEASES && st.leases[i].inUse
    requires var rs := Records(st.leases, MAX_LEASES);
             read == Restored(Image(STORE_VERSION, st.bootSeq, rs), NextGeneration(st.bootSeq), |rs|)
    requires k < |read| && read[k] == LeaseOf(RecordOf(st.leases[i])) && Persisted(st.leases[i]) != 0
    requires Distinct(read)
    ensures Disputed(read, k) <==>
              exists j | 0 <= j < MAX_LEASES && j != i ::
                StoresClaim(st.leases[j], NextGeneration(st.bootSeq), Persisted(st.leases[i]))
  {
    var bootSeq, ip := NextGeneration(st.bootSeq), Persisted(st.leases[i]);
    if Disputed(read, k) {
      var m :| 0 <= m < |read| && m != k && (read[m].ip == ip || read[m].observedIp == ip);
      var j := SlotOfRestored(st, read, m);
      assert j != i && StoresClaim(st.leases[j], bootSeq, ip);
    }
    if j :| 0 <= j < MAX_LEASES && j != i && StoresClaim(st.leases[j], bootSeq, ip) {
      var m := RestoredOfSlot(st, read, j);
      assert m != k && (read[m].ip == ip || read[m].observedIp == ip);
    }
  }

  lemma SlotOfRestored(st: Server, read: seq<Lease>, m: nat) returns (j: nat)
    requires |st.leases| == MAX_LEASES && m < |read|
    requires var rs := Records(st.leases, MAX_LEASES);
             read == Restored(Image(STORE_VERSION, st.bootSeq, rs), NextGeneration(st.bootSeq), |rs|)
    ensures j < MAX_LEASES && Storable(st.leases[j]) && read[m] == LeaseOf(RecordOf(st.leases[j]))
    ensures Age(RecordOf(st.leases[j]), NextGeneration(st.bootSeq)) <= FORGET_AFTER_BOOTS
  {
    var rs := Records(st.leases, MAX_LEASES);
    var img, bootSeq := Image(STORE_VERSION, st.bootSeq, rs), NextGeneration(st.bootSeq);
    RestoredSound(img, bootSeq, |rs|);
    assert read[m] in read;
    var n :| 0 <= n < |img.records| && Keeps(img.version, img.records[n], bootSeq)
             && read[m] == LeaseOf(img.records[n]);
    RecordsSound(st.leases, MAX_LEASES);
    assert rs[n] in rs;
    j :| 0 <= j < MAX_LEASES && Storable(st.leases[j]) && rs[n] == RecordOf(st.leases[j]);
  }

  lemma RestoredOfSlot(st: Server, read: seq<Lease>, j: nat) returns (m: nat)
    requires |st.leases| == MAX_LEASES && j < MAX_LEASES && Storable(st.leases[j])
    requires Age(RecordOf(st.leases[j]), NextGeneration(st.bootSeq)) <= FORGET_AFTER_BOOTS
    requires var rs := Records(st.leases, MAX_LEASES);
             read == Restored(Image(STORE_VERSION, st.bootSeq, rs), NextGeneration(st.bootSeq), |rs|)
    ensures m < |read| && read[m] == LeaseOf(RecordOf(st.leases[j]))
  {
    var rs, r := Records(st.leases, MAX_LEASES), RecordOf(st.leases[j]);
    var img, bootSeq := Image(STORE_VERSION, st.bootSeq, rs), NextGeneration(st.bootSeq);
    RecordsSound(st.leases, MAX_LEASES);
    var n :| 0 <= n < |rs| && rs[n] == r;
    RestoredSound(img, bootSeq, |rs|);
    assert Keeps(img.version, img.records[n], bootSeq);
    m :| 0 <= m < |read| && read[m] == LeaseOf(r);
  }

  /** Entry `e` is what record `i` of a version 1 or 2 table becomes: its client and
      its address, and in version 2 the address it was seen on unless that is disputed. */
  ghost predicate FromOldRecord(version: u16, rs: seq<Record>, i: nat, e: Lease)
    requires i < |rs|
  {
    && e.inUse && e.mac == rs[i].mac && e.ip == e.savedIp == rs[i].ip
    && e.lastSeenSeq == 0 && e.expiresUs == 0 && !e.quarantined
    && e.observedIp ==
         if version == 1
            || (exists j | 0 <= j < |rs| ::
                  j != i && (rs[j].ip == rs[i].observedIp || rs[j].observedIp == rs[i].observedIp))
         then 0 else rs[i].observedIp
  }

  /** An older version's blob boots into the very entries it names, at generation 1,
      with nobody forgotten and nobody added. */
  lemma OlderVersionsBoot(version: u16, rs: seq<Record>, now: int)
    requires 1 <= version < STORE_VERSION && |rs| <= MAX_LEASES
    ensures var st := Boot(Some(EncodeBlob(version, rs, 0)), now);
            && st.bootSeq == 1 && st.declined == []
            && (forall i | |rs| <= i < MAX_LEASES :: st.leases[i] == ZERO_LEASE)
            && (forall i | 0 <= i < |rs| :: FromOldRecord(version, rs, i, st.leases[i]))
  {
    AnyBlobRoundTrip(version, rs, 0);
    OlderImageBoots(version, rs, now);
  }

  lemma OlderImageBoots(version: u16, rs: seq<Record>, now: int)
    requires 1 <= version < STORE_VERSION && |rs| <= MAX_LEASES
    ensures var st := BootImage(Image(version, 0, AllAsOf(version, rs)), now);
            && st.bootSeq == 1 && st.declined == []
            && (forall i | |rs| <= i < MAX_LEASES :: st.leases[i] == ZERO_LEASE)
            && (forall i | 0 <= i < |rs| :: FromOldRecord(version, rs, i, st.leases[i]))
  {
    var img := Image(version, 0, AllAsOf(version, rs));
    var read := Restored(img, 1, |rs|);
    NobodyForgotten(img, 1, |rs|);
    forall i | 0 <= i < |rs|
      ensures FromOldRecord(version, rs, i, Padded(DropDisputed(read))[i])
    {
      OlderEntry(version, rs, read, i);
    }
  }

  lemma OlderEntry(version: u16, rs: seq<Record>, read: seq<Lease>, i: nat)
    requires 1 <= version < STORE_VERSION && |read| == |rs| <= MAX_LEASES && i < |rs|
    requires forall k | 0 <= k < |rs| :: read[k] == LeaseOf(AsOf(version, rs[k]))
    ensures FromOldRecord(version, rs, i, Padded(DropDisputed(read))[i])
  {
    assert Padded(DropDisputed(read))[i] == Settle(read, i);
  }

  lemma {:induction false} NobodyForgotten(img: Image, bootSeq: u32, n: nat)
    requires n <= |img.records| && img.version < STORE_VERSION
    ensures |Restored(img, bootSeq, n)| == n
    ensures forall i | 0 <= i < n :: Restored(img, bootSeq, n)[i] == LeaseOf(img.records[i])
  {
    if n > 0 {
      NobodyForgotten(img, bootSeq, n - 1);
    }
  }
}

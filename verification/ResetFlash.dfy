/** The reset history as it is stored in flash: two record layouts, what a save
    writes, and what a boot makes of whatever bytes it finds. */
module ResetFlash {
  import opened Bytes

  const STORE_MAGIC: u32 := 0x474C_5352
  const STORE_VERSION: u16 := 2
  const MAX_RECORDS: nat := 16
  const HDR_LEN: nat := 12
  const BLOB_MAX: nat := 844
  const U64: int := 0x1_0000_0000_0000_0000

  type i64 = x: int | -0x8000_0000_0000_0000 <= x < 0x8000_0000_0000_0000

  /** Fixed-size text fields, as `strlcpy` leaves them. */
  type Version = v: seq<byte> | |v| == 24 witness seq(24, _ => 0)
  type Part = p: seq<byte> | |p| == 8 witness seq(8, _ => 0)

  const F_PREV_STATE: bv8 := 0x01
  const F_REACHED_READY: bv8 := 0x02
  const F_OTA_PENDING: bv8 := 0x04
  const F_ROLLBACK: bv8 := 0x08
  const F_PREV_UPTIME_MIN: bv8 := 0x10
  const F_RAIL_KNOWN: bv8 := 0x20
  const F_RAIL_HELD: bv8 := 0x40
  const F_BOOT_TIME: bv8 := 0x80

  datatype Entry = Entry(
    bootSeq: u32, prevUptimeS: u32, reason: byte, intent: byte, flags: bv8,
    version: Version, part: Part, bootEpoch: i64)
  {
    /** The flag is one of the `F_` bits. */
    predicate Has(flag: bv8) {
      flags & flag != 0
    }

    /** What every reader of the text fields relies on. */
    predicate Terminated() {
      version[23] == 0 && part[7] == 0
    }
  }

  datatype Log = Log(ring: seq<Entry>, nextSeq: u32)

  const NO_LOG := Log([], 1)

  // ---- the byte format ----

  /** A record's size and place depend on the version that wrote it. */
  function RecLen(version: u16): nat {
    if version >= 2 then 52 else 44
  }

  function RecAt(version: u16, i: nat): nat {
    if version >= 2 then HDR_LEN + 52 * i else HDR_LEN + 44 * i
  }

  function Unsigned(x: i64): (u: nat)
    ensures u < U64
  {
    if x < 0 then x + U64 else x
  }

  function FromUnsigned(u: nat): (x: i64)
    requires u < U64
  {
    if u >= 0x8000_0000_0000_0000 then u - U64 else u
  }

  /** The part both layouts share. */
  function EncodeFixed(e: Entry): (b: seq<byte>)
    ensures |b| == 44
  {
    Le(e.bootSeq, 4) + Le(e.prevUptimeS, 4) + [e.reason, e.intent, e.flags as byte, 0] + e.version + e.part
  }

  function EncodeEntry(e: Entry): (b: seq<byte>)
    ensures |b| == 52
  {
    EncodeFixed(e) + Le(Unsigned(e.bootEpoch), 8)
  }

  function EncodeHeader(version: u16, count: u16, nextSeq: u32): (b: seq<byte>)
    ensures |b| == HDR_LEN
  {
    Le(STORE_MAGIC, 4) + Le(version, 2) + Le(count, 2) + Le(nextSeq, 4)
  }

  /** One record as `version` lays it out. */
  function EncodeAs(version: u16, e: Entry): (b: seq<byte>)
    ensures |b| == RecLen(version)
  {
    if version >= 2 then EncodeEntry(e) else EncodeFixed(e)
  }

  function EncodeRing(version: u16, ring: seq<Entry>): (b: seq<byte>)
    ensures HDR_LEN + |b| == RecAt(version, |ring|)
  {
    if ring == [] then [] else EncodeRing(version, ring[..|ring| - 1]) + EncodeAs(version, ring[|ring| - 1])
  }

  function EncodeBlob(version: u16, log: Log): (b: seq<byte>)
    requires |log.ring| <= MAX_RECORDS
    ensures |b| == RecAt(version, |log.ring|) <= BLOB_MAX
  {
    EncodeHeader(version, |log.ring|, log.nextSeq) + EncodeRing(version, log.ring)
  }

  function Encode(log: Log): seq<byte>
    requires |log.ring| <= MAX_RECORDS
  {
    EncodeBlob(STORE_VERSION, log)
  }

  /** The last byte of a text field is made a terminator, whatever was stored. */
  function DecodeEntry(b: seq<byte>, off: nat, version: u16): (e: Entry)
    requires off + RecLen(version) <= |b|
    ensures e.Terminated()
  {
    Span8();
    Entry(
      FromLe(Slice(b, off, 4)),
      FromLe(Slice(b, off + 4, 4)),
      b[off + 8],
      b[off + 9],
      if version >= 2 then b[off + 10] as bv8 else (b[off + 10] as bv8) & !F_BOOT_TIME,
      Slice(b, off + 12, 23) + [0],
      Slice(b, off + 36, 7) + [0],
      if version >= 2 then FromUnsigned(FromLe(Slice(b, off + 44, 8))) else 0)
  }

  lemma Span8()
    ensures Span(8) == U64
  {
    assert Span(5) == 0x100_0000_0000 && Span(6) == 0x1_0000_0000_0000;
    assert Span(7) == 0x100_0000_0000_0000;
  }

  function DecodeRing(b: seq<byte>, version: u16, n: nat): (ring: seq<Entry>)
    requires RecAt(version, n) <= |b|
    ensures |ring| == n
    ensures forall e | e in ring :: e.Terminated()
  {
    if n == 0 then [] else DecodeRing(b, version, n - 1) + [DecodeEntry(b, RecAt(version, n - 1), version)]
  }

  /** What a stored byte string means, or None if this build will not use it. */
  function Parse(b: seq<byte>): (log: Option<Log>)
    ensures log.Some? ==>
              && |log.value.ring| <= MAX_RECORDS && log.value.nextSeq > 0
              && forall e | e in log.value.ring :: e.Terminated()
  {
    if |b| > BLOB_MAX || |b| < HDR_LEN then None
    else
      var version := FromLe(Slice(b, 4, 2));
      var count := FromLe(Slice(b, 6, 2));
      var nextSeq := FromLe(Slice(b, 8, 4));
      if FromLe(Slice(b, 0, 4)) != STORE_MAGIC || version < 1 || version > STORE_VERSION then None
      else if count > MAX_RECORDS || |b| < RecAt(version, count) then None
      else Some(Log(DecodeRing(b, version, count), if nextSeq == 0 then 1 else nextSeq))
  }

  function Loaded(flash: Option<seq<byte>>): (log: Log)
    ensures |log.ring| <= MAX_RECORDS && log.nextSeq > 0
    ensures forall e | e in log.ring :: e.Terminated()
  {
    if flash.None? || Parse(flash.value).None? then NO_LOG else Parse(flash.value).value
  }

  // ---- round trip ----

  /** What a record comes back as from a blob of the given version. */
  function AsOf(version: u16, e: Entry): Entry {
    if version >= 2 then e
    else e.(flags := e.flags & !F_BOOT_TIME, bootEpoch := 0)
  }

  lemma FixedFields(e: Entry)
    ensures var b := EncodeFixed(e);
            && Slice(b, 0, 4) == Le(e.bootSeq, 4) && Slice(b, 4, 4) == Le(e.prevUptimeS, 4)
            && b[8] == e.reason && b[9] == e.intent && b[10] == e.flags as byte
            && Slice(b, 12, 23) == e.version[..23] && Slice(b, 36, 7) == e.part[..7]
  {
    var b := EncodeFixed(e);
    assert b[12..36] == e.version;
    assert b[36..44] == e.part;
    assert b[12..35] == b[12..36][..23];
    assert b[36..43] == b[36..44][..7];
  }

  lemma FlagsRoundTrip(flags: bv8)
    ensures (flags as byte) as bv8 == flags
  {
  }

  lemma FixedInPlace(b: seq<byte>, off: nat, e: Entry)
    requires off + 44 <= |b| && Slice(b, off, 44) == EncodeFixed(e)
    ensures Slice(b, off, 4) == Le(e.bootSeq, 4) && Slice(b, off + 4, 4) == Le(e.prevUptimeS, 4)
    ensures b[off + 8] == e.reason && b[off + 9] == e.intent && b[off + 10] == e.flags as byte
    ensures Slice(b, off + 12, 23) == e.version[..23] && Slice(b, off + 36, 7) == e.part[..7]
  {
    FixedFields(e);
    SliceOfSlice(b, off, 44, 0, 4);
    SliceOfSlice(b, off, 44, 4, 4);
    SliceOfSlice(b, off, 44, 12, 23);
    SliceOfSlice(b, off, 44, 36, 7);
    var s := Slice(b, off, 44);
    assert b[off + 8] == s[8] && b[off + 9] == s[9] && b[off + 10] == s[10];
  }

  lemma TextsAreTerminated(e: Entry)
    requires e.Terminated()
    ensures e.version == e.version[..23] + [0] && e.part == e.part[..7] + [0]
  {
  }

  lemma FixedRoundTrip(b: seq<byte>, off: nat, version: u16, e: Entry)
    requires off + RecLen(version) <= |b| && e.Terminated()
    requires Slice(b, off, 44) == EncodeFixed(e)
    ensures DecodeEntry(b, off, 1) == AsOf(1, e)
  {
    FixedInPlace(b, off, e);
    FieldsDecode(b, off, e);
  }

  lemma FieldsDecode(b: seq<byte>, off: nat, e: Entry)
    requires off + 44 <= |b| && e.Terminated()
    requires Slice(b, off, 4) == Le(e.bootSeq, 4) && Slice(b, off + 4, 4) == Le(e.prevUptimeS, 4)
    requires b[off + 8] == e.reason && b[off + 9] == e.intent && b[off + 10] == e.flags as byte
    requires Slice(b, off + 12, 23) == e.version[..23] && Slice(b, off + 36, 7) == e.part[..7]
    ensures DecodeEntry(b, off, 1) == AsOf(1, e)
  {
    FixedValues(e);
    TextsAreTerminated(e);
  }

  lemma FixedValues(e: Entry)
    ensures FromLe(Le(e.bootSeq, 4)) == e.bootSeq && FromLe(Le(e.prevUptimeS, 4)) == e.prevUptimeS
    ensures (e.flags as byte) as bv8 == e.flags
  {
    LeRoundTrip(e.bootSeq, 4);
    LeRoundTrip(e.prevUptimeS, 4);
    FlagsRoundTrip(e.flags);
  }

  lemma EntryRoundTrip(b: seq<byte>, off: nat, version: u16, e: Entry)
    requires off + RecLen(version) <= |b| && e.Terminated()
    requires Slice(b, off, RecLen(version)) == EncodeAs(version, e)
    ensures DecodeEntry(b, off, version) == AsOf(version, e)
  {
    if version >= 2 {
      var x := EncodeEntry(e);
      assert Slice(x, 0, 44) == EncodeFixed(e) && Slice(x, 44, 8) == Le(Unsigned(e.bootEpoch), 8);
      SliceOfSlice(b, off, 52, 0, 44);
      SliceOfSlice(b, off, 52, 44, 8);
      FixedRoundTrip(b, off, version, e);
      Span8();
      LeRoundTrip(Unsigned(e.bootEpoch), 8);
      assert b[off + 10] == EncodeFixed(e)[10] by {
        assert Slice(b, off, 44)[10] == b[off + 10];
      }
      FixedFields(e);
      FlagsRoundTrip(e.flags);
    } else {
      FixedRoundTrip(b, off, version, e);
    }
  }

  lemma SliceOfPrefix(a: seq<byte>, b: seq<byte>, off: nat, n: nat)
    requires off + n <= |a|
    ensures Slice(a + b, off, n) == Slice(a, off, n)
  {
  }

  lemma SliceOfEnd(a: seq<byte>, b: seq<byte>)
    ensures Slice(a + b, |a|, |b|) == b
  {
  }

  lemma {:induction false} EntryInPlace(hdr: seq<byte>, version: u16, ring: seq<Entry>, i: nat)
    requires |hdr| == HDR_LEN && i < |ring|
    ensures RecAt(version, i) + RecLen(version) <= |hdr + EncodeRing(version, ring)|
    ensures Slice(hdr + EncodeRing(version, ring), RecAt(version, i), RecLen(version)) == EncodeAs(version, ring[i])
  {
    var init, last := EncodeRing(version, ring[..|ring| - 1]), EncodeAs(version, ring[|ring| - 1]);
    var b := hdr + EncodeRing(version, ring);
    assert b == hdr + init + last;
    if i < |ring| - 1 {
      EntryInPlace(hdr, version, ring[..|ring| - 1], i);
      SliceOfPrefix(hdr + init, last, RecAt(version, i), RecLen(version));
    } else {
      SliceOfEnd(hdr + init, last);
    }
  }

  lemma EntryDecodes(hdr: seq<byte>, version: u16, ring: seq<Entry>, i: nat)
    requires |hdr| == HDR_LEN && i < |ring| && ring[i].Terminated()
    ensures RecAt(version, i) + RecLen(version) <= |hdr + EncodeRing(version, ring)|
    ensures DecodeEntry(hdr + EncodeRing(version, ring), RecAt(version, i), version) == AsOf(version, ring[i])
  {
    EntryInPlace(hdr, version, ring, i);
    EntryRoundTrip(hdr + EncodeRing(version, ring), RecAt(version, i), version, ring[i]);
  }

  function AllAsOf(version: u16, ring: seq<Entry>): (r: seq<Entry>)
    ensures |r| == |ring| && forall k | 0 <= k < |ring| :: r[k] == AsOf(version, ring[k])
  {
    seq(|ring|, k requires 0 <= k < |ring| => AsOf(version, ring[k]))
  }

  ghost predicate DecodesTo(b: seq<byte>, version: u16, i: nat, e: Entry) {
    RecAt(version, i) + RecLen(version) <= |b| && DecodeEntry(b, RecAt(version, i), version) == e
  }

  lemma DecodeOneMore(b: seq<byte>, version: u16, n: nat, e: Entry)
    requires n > 0 && RecAt(version, n) <= |b| && DecodesTo(b, version, n - 1, e)
    ensures DecodeRing(b, version, n) == DecodeRing(b, version, n - 1) + [e]
  {
  }

  lemma {:induction false} DecodeEach(b: seq<byte>, version: u16, n: nat, ring: seq<Entry>)
    requires RecAt(version, n) <= |b| && n <= |ring|
    requires forall i | 0 <= i < n :: DecodesTo(b, version, i, ring[i])
    ensures DecodeRing(b, version, n) == ring[..n]
  {
    if n > 0 {
      DecodeOneMore(b, version, n, ring[n - 1]);
      DecodeEach(b, version, n - 1, ring);
      assert ring[..n] == ring[..n - 1] + [ring[n - 1]];
    }
  }

  lemma RingRoundTrip(hdr: seq<byte>, version: u16, ring: seq<Entry>)
    requires |hdr| == HDR_LEN && forall e | e in ring :: e.Terminated()
    ensures DecodeRing(hdr + EncodeRing(version, ring), version, |ring|) == AllAsOf(version, ring)
  {
    var b, back := hdr + EncodeRing(version, ring), AllAsOf(version, ring);
    forall i | 0 <= i < |ring|
      ensures DecodesTo(b, version, i, back[i])
    {
      EntryDecodes(hdr, version, ring, i);
    }
    DecodeEach(b, version, |ring|, back);
    assert back[..|ring|] == back;
  }

  lemma HeaderRoundTrip(version: u16, count: u16, nextSeq: u32, c: seq<byte>)
    ensures var b := EncodeHeader(version, count, nextSeq) + c;
            && FromLe(Slice(b, 0, 4)) == STORE_MAGIC
            && FromLe(Slice(b, 4, 2)) == version
            && FromLe(Slice(b, 6, 2)) == count
            && FromLe(Slice(b, 8, 4)) == nextSeq
  {
    var b := EncodeHeader(version, count, nextSeq) + c;
    assert Slice(b, 0, 4) == Le(STORE_MAGIC, 4);
    assert Slice(b, 4, 2) == Le(version, 2);
    assert Slice(b, 6, 2) == Le(count, 2);
    assert Slice(b, 8, 4) == Le(nextSeq, 4);
    LeRoundTrip(STORE_MAGIC, 4);
    LeRoundTrip(version, 2);
    LeRoundTrip(count, 2);
    LeRoundTrip(nextSeq, 4);
  }

  /** Either version's blob is read back record for record: version 2 exactly,
      version 1 without a time. A number of 0 for the next boot reads as 1. */
  lemma BlobRoundTrip(version: u16, log: Log)
    requires 1 <= version <= STORE_VERSION && |log.ring| <= MAX_RECORDS
    requires forall e | e in log.ring :: e.Terminated()
    ensures Parse(EncodeBlob(version, log)) ==
            Some(Log(AllAsOf(version, log.ring), if log.nextSeq == 0 then 1 else log.nextSeq))
  {
    var hdr := EncodeHeader(version, |log.ring|, log.nextSeq);
    HeaderRoundTrip(version, |log.ring|, log.nextSeq, EncodeRing(version, log.ring));
    RingRoundTrip(hdr, version, log.ring);
  }

  /** What this build saves is what the next boot loads. */
  lemma LoadedIsSaved(log: Log)
    requires |log.ring| <= MAX_RECORDS && log.nextSeq > 0
    requires forall e | e in log.ring :: e.Terminated()
    ensures Loaded(Some(Encode(log))) == log
  {
    BlobRoundTrip(STORE_VERSION, log);
    assert AllAsOf(STORE_VERSION, log.ring) == log.ring;
  }

  lemma AppendEntry(ring: seq<Entry>, e: Entry)
    ensures EncodeRing(STORE_VERSION, ring + [e]) == EncodeRing(STORE_VERSION, ring) + EncodeEntry(e)
  {
    assert (ring + [e])[..|ring|] == ring;
  }
}

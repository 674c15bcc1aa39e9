/** The reset history as the firmware keeps it: a ring in RAM, oldest first, that is
    loaded once, appended to once, and written back. */
module ResetLog {
  import opened Bytes
  import opened ResetFlash
  import opened ResetBoots

  const BLANK: Entry := Entry(0, 0, 0, 0, 0, seq(24, _ => 0), seq(8, _ => 0), 0)

  function Newest(ring: seq<Entry>): (r: seq<Entry>)
    ensures |r| == |ring|
  {
    if ring == [] then [] else [ring[|ring| - 1]] + Newest(ring[..|ring| - 1])
  }

  class History {
    const ring: array<Entry>
    var count: nat
    var nextSeq: u32
    var ckptSeq: u32
    var ckptNext: nat

    ghost predicate Valid()
      reads this, ring
    {
      ring.Length == MAX_RECORDS && count <= MAX_RECORDS && ckptNext <= |CKPT_TIMES|
    }

    ghost function State(): Log
      requires Valid()
      reads this, ring
    {
      Log(ring[..count], nextSeq)
    }

    constructor ()
      ensures Valid() && fresh(ring) && State() == NO_LOG && ckptSeq == 0 && ckptNext == 0
    {
      ring := new Entry[MAX_RECORDS](_ => BLANK);
      count, nextSeq, ckptSeq, ckptNext := 0, 1, 0, 0;
      new;
      assert ring[..0] == [];
    }

    // ---- loading and saving ----

    method LoadFromNvs(flash: Option<seq<byte>>)
      requires Valid() && State() == NO_LOG
      modifies this`count, this`nextSeq, ring
      ensures Valid() && State() == Loaded(flash)
    {
      if flash.None? || |flash.value| > BLOB_MAX || |flash.value| < HDR_LEN {
        return;
      }
      var buf := flash.value;
      var version := FromLe(Slice(buf, 4, 2));
      var n := FromLe(Slice(buf, 6, 2));
      if FromLe(Slice(buf, 0, 4)) != STORE_MAGIC || version < 1 || version > STORE_VERSION {
        return;
      }
      if n > MAX_RECORDS || |buf| < RecAt(version, n) {
        return;
      }
      ReadEntries(buf, version, n);
      count := n;
      var next := FromLe(Slice(buf, 8, 4));
      nextSeq := if next == 0 then 1 else next;
    }

    method ReadEntries(buf: seq<byte>, version: u16, n: nat)
      requires Valid() && n <= MAX_RECORDS && RecAt(version, n) <= |buf|
      modifies ring
      ensures ring[..n] == DecodeRing(buf, version, n)
    {
      for i := 0 to n
        invariant ring[..i] == DecodeRing(buf, version, i)
      {
        ghost var done := ring[..i];
        ring[i] := DecodeEntry(buf, RecAt(version, i), version);
        assert ring[..i + 1] == done + [ring[i]];
      }
    }

    static method PutBytes(buf: array<byte>, off: nat, s: seq<byte>)
      requires off + |s| <= buf.Length
      modifies buf
      ensures buf[..off + |s|] == old(buf[..off]) + s
    {
      for i := 0 to |s|
        invariant buf[..off] == old(buf[..off]) && buf[off..off + i] == s[..i]
      {
        buf[off + i] := s[i];
        assert buf[off..off + i + 1] == buf[off..off + i] + [s[i]];
      }
      assert buf[..off + |s|] == buf[..off] + buf[off..off + |s|];
    }

    /** The bytes of a save. */
    method Serialize() returns (blob: seq<byte>)
      requires Valid()
      ensures blob == Encode(State())
    {
      var buf := new byte[BLOB_MAX](_ => 0);
      var header := EncodeHeader(STORE_VERSION, count, nextSeq);
      PutBytes(buf, 0, header);
      PutRing(buf, header);
      assert ring[..count] == State().ring;
      blob := buf[..RecAt(STORE_VERSION, count)];
    }

    method PutRing(buf: array<byte>, header: seq<byte>)
      requires Valid() && buf.Length == BLOB_MAX && |header| == HDR_LEN && buf[..HDR_LEN] == header
      modifies buf
      ensures RecAt(STORE_VERSION, count) <= buf.Length
      ensures buf[..RecAt(STORE_VERSION, count)] == header + EncodeRing(STORE_VERSION, ring[..count])
    {
      var off := HDR_LEN;
      for i := 0 to count
        invariant off == RecAt(STORE_VERSION, i)
        invariant buf[..off] == header + EncodeRing(STORE_VERSION, ring[..i])
      {
        var bytes := EncodeEntry(ring[i]);
        PutBytes(buf, off, bytes);
        RingGrows(header, ring[..i], ring[i]);
        assert ring[..i + 1] == ring[..i] + [ring[i]];
        off := off + 52;
      }
    }

    static lemma RingGrows(header: seq<byte>, done: seq<Entry>, e: Entry)
      ensures header + EncodeRing(STORE_VERSION, done + [e])
           == (header + EncodeRing(STORE_VERSION, done)) + EncodeEntry(e)
    {
      AppendEntry(done, e);
    }

    // ---- the boot ----

    /** Shifts the oldest record out of a full ring. */
    method DropOldest()
      requires Valid() && count == MAX_RECORDS
      modifies this`count, ring
      ensures Valid() && count == MAX_RECORDS - 1 && ring[..count] == old(ring[..])[1..]
    {
      for i := 1 to MAX_RECORDS
        invariant count == MAX_RECORDS
        invariant forall k | 0 <= k < i - 1 :: ring[k] == old(ring[k + 1])
        invariant forall k | i <= k < MAX_RECORDS :: ring[k] == old(ring[k])
      {
        ring[i - 1] := ring[i];
      }
      count := count - 1;
    }

    /** Adds the newest record at the end. */
    method Push(e: Entry)
      requires Valid()
      modifies this`count, ring
      ensures Valid()
      ensures ring[..count] == Append(old(State()), e).ring
    {
      if count == MAX_RECORDS {
        assert ring[..count] == ring[..];
        DropOldest();
      }
      ghost var kept := ring[..count];
      ring[count] := e;
      count := count + 1;
      assert ring[..count] == kept + [e];
    }

    /** Opens this boot's record and takes its number. */
    method OpenRecord(cell: Option<u64>, s: Start)
      requires Valid() && nextSeq > 0
      modifies this`count, this`nextSeq, this`ckptSeq, ring
      ensures Valid() && ckptSeq == old(nextSeq)
      ensures State() == Begun(old(State()), cell, s)
    {
      var e := Opened(Log(ring[..count], nextSeq), cell, s);
      Push(e);
      ckptSeq := nextSeq;
      nextSeq := (nextSeq + 1) % U32;
    }

    /** The start of a boot: what was stored is loaded, the record about the boot
        that just ended appended, and the ring and the checkpoint seed written. */
    method Init(flash: Option<seq<byte>>, cell: Option<u64>, s: Start) returns (blob: seq<byte>, seed: u64)
      requires Valid() && State() == NO_LOG && ckptNext == 0
      modifies this, ring
      ensures Valid() && ckptNext == 0 && ckptSeq == Loaded(flash).nextSeq
      ensures State() == Begun(Loaded(flash), cell, s)
      ensures blob == Encode(State()) && seed == PackCheckpoint(ckptSeq, 0)
    {
      LoadFromNvs(flash);
      OpenRecord(cell, s);
      blob := Serialize();
      seed := PackCheckpoint(ckptSeq, 0);
    }

    // ---- while it runs ----

    /** The checkpoint to write now, if the schedule says so. */
    method CheckpointTick(up: u32) returns (write: Option<u64>)
      requires Valid()
      modifies this`ckptNext
      ensures Valid()
      ensures write.Some? <==>
                ckptSeq != 0 && old(ckptNext) < |CKPT_TIMES| && up >= CKPT_TIMES[old(ckptNext)]
      ensures ckptNext == if write.Some? then Advance(old(ckptNext), up) else old(ckptNext)
      ensures write.Some? ==> write.value == PackCheckpoint(ckptSeq, up)
    {
      if ckptSeq == 0 || ckptNext >= |CKPT_TIMES| || up < CKPT_TIMES[ckptNext] {
        return None;
      }
      ghost var goal := Advance(ckptNext, up);
      while ckptNext < |CKPT_TIMES| && up >= CKPT_TIMES[ckptNext]
        invariant ckptNext <= |CKPT_TIMES| && Advance(ckptNext, up) == goal
      {
        ckptNext := ckptNext + 1;
      }
      return Some(PackCheckpoint(ckptSeq, up));
    }

    /** Stamps this boot's record once; the blob to write, if it was not stamped yet. */
    method NoteTime(epoch: i64) returns (blob: Option<seq<byte>>)
      requires Valid()
      modifies ring
      ensures Valid()
      ensures blob.Some? <==> count > 0 && !old(ring[..count])[count - 1].Has(F_BOOT_TIME)
      ensures blob.None? ==> State() == old(State())
      ensures blob.Some? ==>
                && State().ring == old(State()).ring[count - 1 := Timed(old(ring[..count])[count - 1], epoch)]
                && blob.value == Encode(State())
    {
      if count == 0 || ring[count - 1].Has(F_BOOT_TIME) {
        return None;
      }
      ghost var was := ring[..count];
      ring[count - 1] := Timed(ring[count - 1], epoch);
      assert ring[..count] == was[count - 1 := Timed(was[count - 1], epoch)];
      var bytes := Serialize();
      return Some(bytes);
    }

    /** Up to `max` records, newest first. */
    method Get(max: nat) returns (out: seq<Entry>)
      requires Valid()
      ensures out == Newest(ring[..count])[..if max < count then max else count]
    {
      out := [];
      var i := count;
      while i > 0 && |out| < max
        invariant 0 <= i <= count && |out| == count - i && |out| <= max
        invariant out + Newest(ring[..i]) == Newest(ring[..count])
      {
        i := i - 1;
        ghost var had := out;
        out := out + [ring[i]];
        assert ring[..i + 1][..i] == ring[..i];
        assert had + ([ring[i]] + Newest(ring[..i])) == out + Newest(ring[..i]);
      }
      assert (out + Newest(ring[..i]))[..|out|] == out;
    }
  }

  /** Newest first means just that. */
  lemma {:induction false} NewestAt(ring: seq<Entry>, k: nat)
    requires k < |ring|
    ensures Newest(ring)[k] == ring[|ring| - 1 - k]
  {
    if k > 0 {
      NewestAt(ring[..|ring| - 1], k - 1);
    }
  }
}

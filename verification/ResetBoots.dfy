/**
 The protocol across boots: each boot appends a record about how the one before it
 ended, seeds an uptime checkpoint stamped with its own number, and moves that
 checkpoint along a schedule whose gaps bound what it does not know.
 */
module ResetBoots {
  import opened Bytes
  import opened ResetFlash

  const M: u32 := 60
  const H: u32 := 3600
  const D: u32 := 86400

  const CKPT_TIMES: seq<u32> := [
    10, 20, 30, 40, 50,
    1 * M, 2 * M, 3 * M, 4 * M, 5 * M,
    10 * M, 15 * M, 30 * M, 45 * M,
    1 * H, 2 * H, 3 * H, 4 * H,
    8 * H, 12 * H, 18 * H,
    1 * D, 2 * D, 3 * D, 4 * D,
    8 * D, 16 * D, 32 * D, 64 * D,
    128 * D, 256 * D,
    365 * D]

  const CKPT_COUNT: nat := 32

  /** The schedule rises, and no point is more than twice the one before it. */
  lemma ScheduleRises()
    ensures |CKPT_TIMES| == CKPT_COUNT && CKPT_TIMES[0] == 10
    ensures forall i | 0 < i < CKPT_COUNT :: CKPT_TIMES[i - 1] < CKPT_TIMES[i] <= 2 * CKPT_TIMES[i - 1]
  {
  }

  lemma {:induction false} ScheduleSorted(i: nat, j: nat)
    requires i < j < CKPT_COUNT
    ensures |CKPT_TIMES| == CKPT_COUNT && CKPT_TIMES[i] < CKPT_TIMES[j]
    decreases j
  {
    ScheduleRises();
    if i < j - 1 {
      ScheduleSorted(i, j - 1);
    }
  }

  function CeilingFrom(times: seq<u32>, floorS: nat, i: nat): (c: nat)
    requires i <= |times|
    decreases |times| - i
  {
    if i == |times| then 0
    else if times[i] > floorS then times[i]
    else CeilingFrom(times, floorS, i + 1)
  }

  /** The next scheduled write after `floorS`, or 0 when there is none. */
  function Ceiling(floorS: nat): nat {
    CeilingFrom(CKPT_TIMES, floorS, 0)
  }

  /** Steps over every point of `times` that `up` has passed. */
  function StepOver(times: seq<u32>, next: nat, up: nat): (r: nat)
    requires next <= |times|
    ensures next <= r <= |times|
    ensures forall i | next <= i < r :: times[i] <= up
    ensures r < |times| ==> up < times[r]
    decreases |times| - next
  {
    if next < |times| && up >= times[next] then StepOver(times, next + 1, up) else next
  }

  function Advance(next: nat, up: nat): (r: nat)
    requires next <= |CKPT_TIMES|
    ensures next <= r <= |CKPT_TIMES|
  {
    StepOver(CKPT_TIMES, next, up)
  }

  /** `next` points are at or before `x`, the rest after it. */
  ghost predicate Passed(times: seq<u32>, next: nat, x: nat) {
    && next <= |times|
    && (forall i | 0 <= i < next :: times[i] <= x)
    && (next < |times| ==> x < times[next])
  }

  lemma {:induction false} CeilingIsNextPoint(times: seq<u32>, x: nat, next: nat, i: nat)
    requires Passed(times, next, x) && i <= next
    ensures CeilingFrom(times, x, i) == if next < |times| then times[next] else 0
    decreases next - i
  {
    if i < next {
      CeilingIsNextPoint(times, x, next, i + 1);
    }
  }

  /** The window stays proportional: past the first point and short of the last,
      the ceiling is at most twice the floor. */
  lemma CeilingIsProportional(floorS: nat)
    requires 10 <= floorS < 365 * D
    ensures floorS < Ceiling(floorS) <= 2 * floorS
  {
    ScheduleRises();
    var next := Advance(0, floorS);
    CeilingIsNextPoint(CKPT_TIMES, floorS, next, 0);
    assert CKPT_TIMES[31] == 365 * D;
    assert 0 < next < CKPT_COUNT;
    assert CKPT_TIMES[next - 1] <= floorS < CKPT_TIMES[next] <= 2 * CKPT_TIMES[next - 1];
  }

  // ---- the checkpoint cell ----

  type u64 = x: int | 0 <= x < 0x1_0000_0000_0000_0000

  function PackCheckpoint(bootSeq: u32, uptimeS: u32): u64 {
    bootSeq * U32 + uptimeS
  }

  /** Believed under the number looked for, whichever boot wrote it. */
  function LoadCheckpoint(cell: Option<u64>, want: u32): Option<u32> {
    if cell.None? || cell.value / U32 != want then None else Some(cell.value % U32)
  }

  lemma CheckpointRoundTrip(bootSeq: u32, uptimeS: u32, want: u32)
    ensures LoadCheckpoint(Some(PackCheckpoint(bootSeq, uptimeS)), want)
         == if bootSeq == want then Some(uptimeS) else None
  {
    var p := PackCheckpoint(bootSeq, uptimeS);
    assert p / U32 == bootSeq && p % U32 == uptimeS;
  }

  // ---- opening a record ----

  datatype Rtc = Rtc(uptimeS: u32, intent: byte, ready: bool)

  datatype Rail = RailUnknown | RailHeld | RailDropped

  datatype Slot = Slot(name: seq<byte>, pending: bool)

  /** What a boot finds: RTC memory if it survived, the reset reason, a clock that
      came through, the rail witness, and the images. */
  datatype Start = Start(
    rtc: Option<Rtc>, reason: byte, bootEpoch: Option<i64>, rail: Rail,
    appVersion: seq<byte>, running: Option<Slot>, otherAborted: bool)

  /** A text copied into a zeroed field of fixed size, always terminated. */
  function Field(s: seq<byte>, size: nat): (f: seq<byte>)
    requires size > 0
    ensures |f| == size && f[size - 1] == 0
  {
    var n := if |s| < size then |s| else size - 1;
    seq(size, k requires 0 <= k => if k < n then s[k] else 0)
  }

  /** A terminated field read as text. */
  function TextOf(f: seq<byte>): seq<byte> {
    if f == [] || f[0] == 0 then [] else [f[0]] + TextOf(f[1..])
  }

  function Bit(on: bool, flag: bv8): bv8 {
    if on then flag else 0
  }

  /** The record before was a trial image, and what runs now is another. */
  predicate RolledBack(ring: seq<Entry>, s: Start) {
    && s.running.Some? && s.otherAborted && ring != []
    && ring[|ring| - 1].Has(F_OTA_PENDING)
    && TextOf(ring[|ring| - 1].part) != s.running.value.name
  }

  /** The record of the boot that starts now, about the boot that just ended. */
  function Opened(log: Log, cell: Option<u64>, s: Start): (e: Entry)
    requires log.nextSeq > 0
    ensures e.Terminated() && e.bootSeq == log.nextSeq
  {
    var prev := s.rtc;
    var floorS := if prev.Some? then None else LoadCheckpoint(cell, log.nextSeq - 1);
    Entry(
      log.nextSeq,
      if prev.Some? then prev.value.uptimeS else if floorS.Some? then floorS.value else 0,
      s.reason,
      if prev.Some? then prev.value.intent else 0,
      Bit(prev.Some?, F_PREV_STATE)
      | Bit(prev.Some? && prev.value.ready, F_REACHED_READY)
      | Bit(s.running.Some? && s.running.value.pending, F_OTA_PENDING)
      | Bit(RolledBack(log.ring, s), F_ROLLBACK)
      | Bit(floorS.Some?, F_PREV_UPTIME_MIN)
      | Bit(s.rail != RailUnknown, F_RAIL_KNOWN)
      | Bit(s.rail == RailHeld, F_RAIL_HELD)
      | Bit(s.bootEpoch.Some?, F_BOOT_TIME),
      Field(s.appVersion, 24),
      Field(if s.running.Some? then s.running.value.name else [], 8),
      if s.bootEpoch.Some? then s.bootEpoch.value else 0)
  }

  lemma BitsSeparate(b0: bool, b1: bool, b2: bool, b3: bool, b4: bool, b5: bool, b6: bool, b7: bool)
    ensures var f := Bit(b0, 0x01) | Bit(b1, 0x02) | Bit(b2, 0x04) | Bit(b3, 0x08)
                     | Bit(b4, 0x10) | Bit(b5, 0x20) | Bit(b6, 0x40) | Bit(b7, 0x80);
            && (f & 0x01 != 0 <==> b0) && (f & 0x02 != 0 <==> b1)
            && (f & 0x04 != 0 <==> b2) && (f & 0x08 != 0 <==> b3)
            && (f & 0x10 != 0 <==> b4) && (f & 0x20 != 0 <==> b5)
            && (f & 0x40 != 0 <==> b6) && (f & 0x80 != 0 <==> b7)
  {
  }

  /** Each flag says what it should, and none disturbs another. */
  lemma FlagsOfOpened(log: Log, cell: Option<u64>, s: Start)
    requires log.nextSeq > 0
    ensures var e := Opened(log, cell, s);
            && (e.Has(F_PREV_STATE) <==> s.rtc.Some?)
            && (e.Has(F_REACHED_READY) <==> s.rtc.Some? && s.rtc.value.ready)
            && (e.Has(F_OTA_PENDING) <==> s.running.Some? && s.running.value.pending)
            && (e.Has(F_ROLLBACK) <==> RolledBack(log.ring, s))
            && (e.Has(F_PREV_UPTIME_MIN) <==>
                  s.rtc.None? && LoadCheckpoint(cell, log.nextSeq - 1).Some?)
            && (e.Has(F_RAIL_KNOWN) <==> s.rail != RailUnknown)
            && (e.Has(F_RAIL_HELD) <==> s.rail == RailHeld)
            && (e.Has(F_BOOT_TIME) <==> s.bootEpoch.Some?)
  {
    var floorS := if s.rtc.Some? then None else LoadCheckpoint(cell, log.nextSeq - 1);
    BitsSeparate(s.rtc.Some?, s.rtc.Some? && s.rtc.value.ready,
                 s.running.Some? && s.running.value.pending, RolledBack(log.ring, s),
                 floorS.Some?, s.rail != RailUnknown, s.rail == RailHeld, s.bootEpoch.Some?);
  }

  function Append(log: Log, e: Entry): Log {
    var kept := if |log.ring| == MAX_RECORDS then log.ring[1..] else log.ring;
    Log(kept + [e], (log.nextSeq + 1) % U32)
  }

  /** The history once the boot that starts now has its record in it. */
  function Begun(log: Log, cell: Option<u64>, s: Start): Log
    requires log.nextSeq > 0
  {
    Append(log, Opened(log, cell, s))
  }

  // ---- one device over its life ----

  /** What a save leaves in flash: nothing, the ring without the checkpoint seed,
      or both. */
  datatype Landed = Nothing | RingOnly | Whole

  datatype Event =
    | Boot(start: Start, landed: Landed)
    | Tick(up: u32, lands: bool)
    | NoteTime(epoch: i64, lands: bool)

  /** The flash and the RAM of the boot now running. The last line is history kept
      for the statements only: the ordinals of this boot and of the one that wrote
      the cell, whether this boot's ring and checkpoint ever landed, whether any
      checkpoint write of it was lost, its uptime at the last tick, and how many
      scheduled and ring writes it made. */
  datatype Device = Device(
    flash: Option<seq<byte>>, cell: Option<u64>,
    log: Log, ckptSeq: u32, ckptNext: nat,
    boot: nat, owner: nat, ringLanded: bool, ckptLanded: bool, lost: bool,
    lastTick: nat, writes: nat, ringWrites: nat)

  function StoreRing(flash: Option<seq<byte>>, log: Log, lands: bool): Option<seq<byte>> {
    if lands && |log.ring| <= MAX_RECORDS then Some(Encode(log)) else flash
  }

  function BootStep(d: Device, s: Start, landed: Landed): Device {
    var log := Loaded(d.flash);
    var log1 := Begun(log, d.cell, s);
    Device(
      StoreRing(d.flash, log1, landed != Nothing),
      if landed == Whole then Some(PackCheckpoint(log.nextSeq, 0)) else d.cell,
      log1, log.nextSeq, 0,
      d.boot + 1, if landed == Whole then d.boot + 1 else d.owner,
      landed != Nothing, landed == Whole, landed != Whole, 0, 0, 1)
  }

  function TickStep(d: Device, up: u32, lands: bool): Device {
    if d.ckptSeq == 0 || d.ckptNext >= |CKPT_TIMES| || up < CKPT_TIMES[d.ckptNext] then d.(lastTick := up)
    else
      d.(cell := if lands then Some(PackCheckpoint(d.ckptSeq, up)) else d.cell,
         ckptNext := Advance(d.ckptNext, up),
         owner := if lands then d.boot else d.owner,
         ckptLanded := d.ckptLanded || lands,
         lost := d.lost || !lands,
         lastTick := up,
         writes := d.writes + 1)
  }

  function NoteTimeStep(d: Device, epoch: i64, lands: bool): Device {
    var n := |d.log.ring|;
    if n == 0 || d.log.ring[n - 1].Has(F_BOOT_TIME) then d
    else
      var e := d.log.ring[n - 1];
      var log := d.log.(ring := d.log.ring[n - 1 := Timed(e, epoch)]);
      d.(log := log, flash := StoreRing(d.flash, log, lands),
         ringLanded := d.ringLanded || lands, ringWrites := d.ringWrites + 1)
  }

  function Timed(e: Entry, epoch: i64): (r: Entry)
    ensures r.Has(F_BOOT_TIME)
  {
    e.(bootEpoch := epoch, flags := e.flags | F_BOOT_TIME)
  }

  function Step(d: Device, ev: Event): Device {
    match ev
    case Boot(s, landed) => BootStep(d, s, landed)
    case Tick(up, lands) => TickStep(d, up, lands)
    case NoteTime(epoch, lands) => NoteTimeStep(d, epoch, lands)
  }

  /** A device as it leaves the factory, before its first boot. */
  const NEW := Device(None, None, NO_LOG, 0, 0, 0, 0, false, false, true, 0, 0, 0)

  // ---- invariants ----

  /** At most 16 records, with consecutive numbers that end just before the next. */
  ghost predicate RingOk(log: Log) {
    && |log.ring| <= MAX_RECORDS && log.nextSeq > |log.ring|
    && forall k | 0 <= k < |log.ring| ::
         log.ring[k].Terminated() && log.ring[k].bootSeq == log.nextSeq - |log.ring| + k
  }

  ghost predicate CellOk(d: Device) {
    && (d.ckptLanded <==> d.owner == d.boot)
    && (d.ckptLanded ==> exists x: u32 :: CellHolds(d, x))
  }

  /** This boot's own checkpoint: no more than it has been up; and if no write was
      lost, the next point is still ahead. */
  ghost predicate CellHolds(d: Device, x: u32) {
    && d.cell == Some(PackCheckpoint(d.ckptSeq, x)) && x <= d.lastTick
    && (!d.lost ==> Passed(CKPT_TIMES, d.ckptNext, x) && (d.ckptNext < |CKPT_TIMES| ==> d.lastTick < CKPT_TIMES[d.ckptNext]))
  }

  /** What the running boot holds, and what is in flash, one number behind until the
      ring has landed. */
  ghost predicate RingsOk(log: Log, stored: Log, landed: bool) {
    && RingOk(log) && RingOk(stored) && log.ring != [] && log.nextSeq > 1
    && stored.nextSeq == if landed then log.nextSeq else log.nextSeq - 1
  }

  /** Holds from the end of the first boot's start on. */
  ghost predicate Inv(d: Device) {
    && RingsOk(d.log, Loaded(d.flash), d.ringLanded) && d.ckptSeq == d.log.nextSeq - 1
    && d.ckptNext <= |CKPT_TIMES| && d.writes <= d.ckptNext
    && d.ringWrites <= (if d.log.ring[|d.log.ring| - 1].Has(F_BOOT_TIME) then 2 else 1)
    && d.owner <= d.boot && CellOk(d) && (!d.lost ==> d.ckptLanded)
  }

  lemma AppendKeepsRing(log: Log, e: Entry)
    requires RingOk(log) && e.Terminated() && e.bootSeq == log.nextSeq && log.nextSeq + 1 < U32
    ensures RingOk(Append(log, e)) && Append(log, e).nextSeq == log.nextSeq + 1
    ensures Append(log, e).ring != [] && Append(log, e).ring[|Append(log, e).ring| - 1] == e
  {
  }

  lemma StoreLoads(flash: Option<seq<byte>>, log: Log, lands: bool)
    requires RingOk(log)
    ensures Loaded(StoreRing(flash, log, lands)) == if lands then log else Loaded(flash)
  {
    if lands {
      LoadedIsSaved(log);
    }
  }

  /** Whatever is in flash, as long as its ring is sound, a boot sets everything up. */
  lemma BootKeepsInv(d: Device, s: Start, landed: Landed)
    requires RingOk(Loaded(d.flash)) && Loaded(d.flash).nextSeq + 1 < U32 && d.owner <= d.boot
    ensures Inv(BootStep(d, s, landed))
  {
    var log := Loaded(d.flash);
    var e := Opened(log, d.cell, s);
    var r := BootStep(d, s, landed);
    AppendKeepsRing(log, e);
    StoreLoads(d.flash, Begun(log, d.cell, s), landed != Nothing);
    ScheduleRises();
    if landed == Whole {
      assert CellHolds(r, 0);
    }
  }

  lemma TickKeepsCell(d: Device, up: u32, lands: bool)
    requires Inv(d) && up >= d.lastTick
    ensures CellOk(TickStep(d, up, lands))
    ensures !TickStep(d, up, lands).lost ==> TickStep(d, up, lands).ckptLanded
  {
    var r := TickStep(d, up, lands);
    if d.ckptNext < |CKPT_TIMES| && up >= CKPT_TIMES[d.ckptNext] && lands {
      TickMoves(d, up);
    } else if d.ckptLanded {
      var x: u32 :| CellHolds(d, x);
      assert CellHolds(r, x);
    }
  }

  lemma TickKeepsInv(d: Device, up: u32, lands: bool)
    requires Inv(d) && up >= d.lastTick
    ensures Inv(TickStep(d, up, lands))
  {
    TickKeepsCell(d, up, lands);
    TickKeepsRest(d, up, lands);
    InvStays(d, TickStep(d, up, lands));
  }

  /** `r` differs from `d` in its checkpoints alone. */
  ghost predicate SameRings(d: Device, r: Device) {
    && r.log == d.log && r.flash == d.flash && r.ringLanded == d.ringLanded
    && r.ringWrites == d.ringWrites && r.ckptSeq == d.ckptSeq
  }

  lemma TickKeepsRest(d: Device, up: u32, lands: bool)
    requires d.ckptNext <= |CKPT_TIMES| && d.writes <= d.ckptNext && d.owner <= d.boot
    ensures var r := TickStep(d, up, lands);
            && SameRings(d, r) && r.writes <= r.ckptNext <= |CKPT_TIMES| && r.owner <= r.boot
  {
  }

  lemma InvStays(d: Device, r: Device)
    requires Inv(d) && SameRings(d, r) && r.writes <= r.ckptNext <= |CKPT_TIMES| && r.owner <= r.boot
    requires CellOk(r) && (!r.lost ==> r.ckptLanded)
    ensures Inv(r)
  {
  }

  lemma TickMoves(d: Device, up: u32)
    requires Inv(d) && d.ckptNext < |CKPT_TIMES| && up >= CKPT_TIMES[d.ckptNext]
    ensures CellHolds(TickStep(d, up, true), up)
  {
    var next := Advance(d.ckptNext, up);
    forall i | 0 <= i < next
      ensures CKPT_TIMES[i] <= up
    {
      if i < d.ckptNext {
        ScheduleSorted(i, d.ckptNext);
      }
    }
  }

  lemma NoteTimeKeepsInv(d: Device, epoch: i64, lands: bool)
    requires Inv(d)
    ensures Inv(NoteTimeStep(d, epoch, lands))
  {
    var r := NoteTimeStep(d, epoch, lands);
    assert RingOk(r.log);
    StoreLoads(d.flash, r.log, lands);
    if d.ckptLanded {
      var x: u32 :| CellHolds(d, x);
      assert CellHolds(r, x);
    }
  }

  // ---- whole lives ----

  /** Uptime does not run backwards within a boot, and boot numbers do not run out. */
  ghost predicate Plausible(d: Device, ev: Event) {
    match ev
    case Boot(_, _) => Loaded(d.flash).nextSeq + 1 < U32
    case Tick(up, _) => d.boot > 0 && up >= d.lastTick
    case NoteTime(_, _) => d.boot > 0
  }

  function Life(d: Device, evs: seq<Event>): Device
    decreases |evs|
  {
    if evs == [] then d else Life(Step(d, evs[0]), evs[1..])
  }

  ghost predicate PlausibleLife(d: Device, evs: seq<Event>)
    decreases |evs|
  {
    evs != [] ==> Plausible(d, evs[0]) && PlausibleLife(Step(d, evs[0]), evs[1..])
  }

  ghost predicate Sound(d: Device) {
    d == NEW || (d.boot > 0 && Inv(d))
  }

  lemma StepKeepsSound(d: Device, ev: Event)
    requires Sound(d) && Plausible(d, ev)
    ensures Sound(Step(d, ev))
  {
    match ev
    case Boot(s, landed) => BootKeepsInv(d, s, landed);
    case Tick(up, lands) => TickKeepsInv(d, up, lands);
    case NoteTime(epoch, lands) => NoteTimeKeepsInv(d, epoch, lands);
  }

  lemma {:induction false} LifeKeepsSound(d: Device, evs: seq<Event>)
    requires Sound(d) && PlausibleLife(d, evs)
    ensures Sound(Life(d, evs))
    decreases |evs|
  {
    if evs != [] {
      StepKeepsSound(d, evs[0]);
      LifeKeepsSound(Step(d, evs[0]), evs[1..]);
    }
  }

  /** Under any pattern of failed saves, both rings hold at most 16 records with
      consecutive numbers that end just before the next boot's; and a boot makes at
      most 32 scheduled writes and two ring writes. */
  lemma RingAndBudget(evs: seq<Event>)
    requires PlausibleLife(NEW, evs)
    ensures var d := Life(NEW, evs);
            && RingOk(d.log) && RingOk(Loaded(d.flash))
            && d.writes <= CKPT_COUNT && d.ringWrites <= 2
  {
    LifeKeepsSound(NEW, evs);
    ScheduleRises();
  }

  // ---- what a power-on record says ----

  /** The record a power-on would open now, about the boot that is running. */
  function PowerLossRecord(d: Device, s: Start): Entry
    requires s.rtc.None?
  {
    Opened(Loaded(d.flash), d.cell, s)
  }

  /** The record carries the running boot's own checkpoint, not an older one. */
  predicate OwnFloor(d: Device, s: Start)
    requires s.rtc.None?
  {
    PowerLossRecord(d, s).Has(F_PREV_UPTIME_MIN) && d.owner == d.boot
  }

  /** Exactly when the floor is the right boot's: some ring write of it landed, and
      some checkpoint write. */
  lemma FloorIsOwnExactly(d: Device, s: Start)
    requires Inv(d) && s.rtc.None?
    ensures OwnFloor(d, s) <==> d.ringLanded && d.ckptLanded
  {
    var want := Loaded(d.flash).nextSeq - 1;
    FlagsOfOpened(Loaded(d.flash), d.cell, s);
    if d.ckptLanded {
      var x: u32 :| CellHolds(d, x);
      CheckpointRoundTrip(d.ckptSeq, x, want);
    }
  }

  /** The record carries a checkpoint that another boot wrote. */
  predicate BorrowedFloor(d: Device, s: Start)
    requires s.rtc.None?
  {
    PowerLossRecord(d, s).Has(F_PREV_UPTIME_MIN) && d.owner != d.boot
  }

  /** Exactly when that happens: no checkpoint of the boot that ended landed, and the
      cell's stamp is its number, if its ring landed, or else the one before. */
  lemma BorrowedExactly(d: Device, s: Start)
    requires Inv(d) && s.rtc.None?
    ensures BorrowedFloor(d, s) <==>
              && !d.ckptLanded && d.cell.Some?
              && d.cell.value / U32 == if d.ringLanded then d.ckptSeq else d.ckptSeq - 1
  {
    FlagsOfOpened(Loaded(d.flash), d.cell, s);
  }

  /** The floor brackets the truth: it is at most the uptime at the last tick; and
      if no checkpoint write was lost, that uptime is below the floor's ceiling. */
  lemma FloorBrackets(d: Device, s: Start)
    requires Inv(d) && s.rtc.None? && d.ringLanded && d.ckptLanded
    ensures var floorS := PowerLossRecord(d, s).prevUptimeS;
            && PowerLossRecord(d, s).Has(F_PREV_UPTIME_MIN)
            && floorS <= d.lastTick
            && (!d.lost && Ceiling(floorS) != 0 ==> d.lastTick < Ceiling(floorS))
  {
    var x: u32 :| CellHolds(d, x);
    FlagsOfOpened(Loaded(d.flash), d.cell, s);
    CheckpointRoundTrip(d.ckptSeq, x, d.ckptSeq);
    if !d.lost {
      CeilingIsNextPoint(CKPT_TIMES, x, d.ckptNext, 0);
    }
  }

  /** Whole lives: if every write of the boot that ended landed, the record the
      next power-on opens has a floor that brackets that boot's last tick. */
  lemma CheckpointsBracket(evs: seq<Event>, s: Start)
    requires PlausibleLife(NEW, evs) && s.rtc.None?
    requires var d := Life(NEW, evs); d.boot > 0 && d.ringLanded && !d.lost
    ensures var d := Life(NEW, evs);
            var e := PowerLossRecord(d, s);
            && e.Has(F_PREV_UPTIME_MIN) && e.prevUptimeS <= d.lastTick
            && (Ceiling(e.prevUptimeS) != 0 ==> d.lastTick < Ceiling(e.prevUptimeS))
  {
    LifeKeepsSound(NEW, evs);
    FloorBrackets(Life(NEW, evs), s);
  }

  /** And when the save at its start did not land, nor any checkpoint, the boot is
      reported with its predecessor's floor, however short it was itself. */
  lemma LostBootBorrowsFloor(d: Device, s1: Start, up: u32, s2: Start)
    requires Inv(d) && d.ringLanded && d.ckptLanded && s2.rtc.None?
    requires Loaded(d.flash).nextSeq + 1 < U32 && up < 10
    ensures var d1 := TickStep(BootStep(d, s1, Nothing), up, true);
            && Inv(d1) && d1.lastTick == up && BorrowedFloor(d1, s2)
            && PowerLossRecord(d1, s2).prevUptimeS == PowerLossRecord(d, s2).prevUptimeS
  {
    var b := BootStep(d, s1, Nothing);
    ScheduleRises();
    BootKeepsInv(d, s1, Nothing);
    TickKeepsInv(b, up, true);
    FloorBrackets(d, s2);
    FlagsOfOpened(Loaded(d.flash), d.cell, s2);
  }

  /** A boot that saved nothing gives its number to the next one. If it left a
      checkpoint, and the next one's ring lands without its seed, that one is reported
      with a floor above its own uptime. */
  lemma RepeatedNumberBorrowsFloor(d: Device, s1: Start, long: u32, s2: Start, short: u32, s3: Start)
    requires Inv(d) && d.ringLanded && s3.rtc.None?
    requires Loaded(d.flash).nextSeq + 1 < U32 && long >= 10 && short < 10
    ensures var d1 := TickStep(BootStep(d, s1, Nothing), long, true);
            var d2 := TickStep(BootStep(d1, s2, RingOnly), short, true);
            && Inv(d2) && d2.ringLanded && d2.lastTick == short && BorrowedFloor(d2, s3)
            && PowerLossRecord(d2, s3).prevUptimeS == long > d2.lastTick
  {
    var b1 := BootStep(d, s1, Nothing);
    ScheduleRises();
    BootKeepsInv(d, s1, Nothing);
    TickKeepsInv(b1, long, true);
    var d1 := TickStep(b1, long, true);
    var b2 := BootStep(d1, s2, RingOnly);
    BootKeepsInv(d1, s2, RingOnly);
    TickKeepsInv(b2, short, true);
    CheckpointRoundTrip(b1.ckptSeq, long, b2.ckptSeq);
    FlagsOfOpened(Loaded(b2.flash), b2.cell, s3);
  }
}

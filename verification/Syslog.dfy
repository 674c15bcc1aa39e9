/** The remote-log sender: a cursor that follows the ring, in budgeted passes. */
module Syslog {
  import opened Bytes
  import opened Decimal
  import opened LogText
  import opened LogAssembly

  const BURST_MAX: nat := 16
  const STALL_MAX: nat := 3
  const DGRAM_MAX: nat := 384
  const HOSTNAME_MAX: nat := 33

  datatype Settings = Settings(
    enabled: bool, serverIp: u32, facility: nat, minSeverity: nat, hostname: string, bootSeq: u32)
  {
    predicate Ok() {
      facility <= 23 && minSeverity <= 7 && |hostname| < HOSTNAME_MAX
    }
  }

  /** How one `sendto` ended. Out of buffers is ENOMEM or ENOBUFS. */
  datatype Sent = Delivered | OutOfBuffers | Refused

  // ---- framing ----

  function Severity(level: char): (s: nat)
    ensures s <= 7
  {
    match level
    case 'E' => 3
    case 'W' => 4
    case 'I' => 6
    case 'D' => 7
    case 'V' => 7
    case _ => 5
  }

  function AppName(tag: string): (s: string)
    ensures s != "" && |s| <= (if tag == "" then 1 else |tag|)
  {
    if tag == "" then "-"
    else seq(|tag|, k requires 0 <= k < |tag| =>
                      if '!' <= tag[k] <= '~' then tag[k] else '_')
  }

  function Sanitized(msg: string): (s: string)
    ensures |s| == |msg|
  {
    seq(|msg|, k requires 0 <= k < |msg| =>
                 if msg[k] < ' ' || msg[k] == '\U{007F}' then '.' else msg[k])
  }

  function Header(cfg: Settings, line: Line): string {
    "<" + Dec(cfg.facility * 8 + Severity(line.level)) + ">1 - " + cfg.hostname + " "
    + AppName(line.tag) + " " + Dec(cfg.bootSeq) + " - "
  }

  function Structured(cfg: Settings, line: Line, n: nat): string {
    "[timeQuality tzKnown=\"0\" isSynced=\"0\"][aog@32473 up_ms=\"" + Dec(line.tsMs)
    + "\" seq=\"" + Dec(n) + "\" boot=\"" + Dec(cfg.bootSeq) + "\"] "
  }

  function Frame(cfg: Settings, line: Line, n: nat): string {
    Header(cfg, line) + Structured(cfg, line, n) + Sanitized(line.msg)
  }

  /** No datagram is ever cut: the worst case is 334 characters. */
  lemma FrameFits(cfg: Settings, line: Line, n: u32)
    requires cfg.Ok() && |line.tag| < TAG_MAX && |line.msg| < MSG_MAX
    ensures |Frame(cfg, line, n)| <= 334 < DGRAM_MAX
  {
    Powers();
    DecLength(cfg.facility * 8 + Severity(line.level), 3);
    DecOfU32(cfg.bootSeq);
    DecOfU32(line.tsMs);
    DecOfU32(n);
  }

  // ---- one pass ----

  /** A datagram accepted: the enabled period and the settings it was sent under. */
  datatype Datagram = Datagram(period: nat, n: nat, under: Settings, text: string)

  /** `wire` is what `sendto` has accepted, in order, and `period` how often the sender
      has been turned on: history, kept for the statements only. */
  datatype Sender = Sender(
    cursor: nat, stalls: nat, stalled: bool,
    sent: nat, filtered: nat, agedOut: nat, sendFail: nat, failing: bool,
    period: nat, wire: seq<Datagram>)
  {
    function Counted(): nat {
      sent + filtered + agedOut + sendFail
    }
  }

  const FRESH := Sender(0, 0, false, 0, 0, 0, 0, false, 0, [])

  /** Everything outside the sender that a pass meets. */
  datatype World = World(view: View, send: nat -> Sent)

  /** Accounts for line `n`; the cursor moves unless the pass stalls on it. */
  function Ship(st: Sender, cfg: Settings, w: World, n: nat): Sender
    requires w.view.Ok()
  {
    var line := w.view.Fetch(n);
    if line.None? then st.(agedOut := st.agedOut + 1, cursor := n)
    else if Severity(line.value.level) > cfg.minSeverity then
      st.(filtered := st.filtered + 1, cursor := n)
    else
      match w.send(n)
      case Delivered =>
        st.(sent := st.sent + 1, stalls := 0, failing := false, cursor := n,
            wire := st.wire + [Datagram(st.period, n, cfg, Frame(cfg, line.value, n))])
      case OutOfBuffers =>
        if st.stalls < STALL_MAX then
          st.(sendFail := st.sendFail + 1, failing := true, stalls := st.stalls + 1, stalled := true)
        else st.(sendFail := st.sendFail + 1, failing := true, cursor := n)
      case Refused => st.(sendFail := st.sendFail + 1, failing := true, cursor := n)
  }

  /** Whether line `n` costs a datagram of the budget. */
  predicate Attempted(cfg: Settings, w: World, n: nat)
    requires w.view.Ok()
  {
    var line := w.view.Fetch(n);
    line.Some? && Severity(line.value.level) <= cfg.minSeverity
  }

  function Drain(st: Sender, cfg: Settings, w: World, n: nat, budget: nat): Sender
    requires w.view.Ok() && n <= w.view.newest + 1
    decreases w.view.newest + 1 - n
  {
    if n > w.view.newest || budget == 0 then st
    else
      var st1 := Ship(st, cfg, w, n);
      if st1.cursor != n then st1
      else Drain(st1, cfg, w, n + 1, if Attempted(cfg, w, n) then budget - 1 else budget)
  }

  lemma DrainNext(st: Sender, cfg: Settings, w: World, n: nat, budget: nat)
    requires w.view.Ok() && n <= w.view.newest && budget > 0
    ensures var st1 := Ship(st, cfg, w, n);
            Drain(st, cfg, w, n, budget) ==
            if st1.cursor != n then st1
            else Drain(st1, cfg, w, n + 1, if Attempted(cfg, w, n) then budget - 1 else budget)
  {
  }

  /** Lines that left the ring before this pass could start on them. */
  function Gap(cursor: nat, newest: nat): nat {
    if cursor + 1 < Oldest(newest) then Oldest(newest) - (cursor + 1) else 0
  }

  /** Counts the gap, except in front of a fresh start, which has missed nothing. */
  function SkipGap(st: Sender, newest: nat): (r: Sender)
    ensures r.cursor == st.cursor
  {
    if st.cursor != 0 then st.(agedOut := st.agedOut + Gap(st.cursor, newest)) else st
  }

  function Pass(st: Sender, cfg: Settings, w: World): Sender
    requires w.view.Ok() && st.cursor <= w.view.newest
  {
    Drain(SkipGap(st, w.view.newest), cfg, w, st.cursor + 1 + Gap(st.cursor, w.view.newest), BURST_MAX)
  }

  // ---- the ledger ----

  lemma {:induction false} DrainLedger(st: Sender, cfg: Settings, w: World, n: nat, budget: nat)
    requires w.view.Ok() && 0 < n <= w.view.newest + 1 && st.cursor < n && !st.stalled
    ensures var r := Drain(st, cfg, w, n, budget);
            && (r.cursor == st.cursor || n <= r.cursor <= w.view.newest)
            && r.Counted() == st.Counted() + (if r.cursor >= n then r.cursor - (n - 1) else 0)
                              + (if r.stalled then 1 else 0)
            && (n <= w.view.newest && budget > 0 ==> r.cursor >= n || r.stalled)
    decreases w.view.newest + 1 - n
  {
    if n <= w.view.newest && budget > 0 {
      var st1 := Ship(st, cfg, w, n);
      if st1.cursor == n {
        DrainLedger(st1, cfg, w, n + 1, if Attempted(cfg, w, n) then budget - 1 else budget);
      }
    }
  }

  /** The first line after the gap is wanted, and there are no buffers for it. */
  predicate StallsAtOnce(st: Sender, cfg: Settings, w: World)
    requires w.view.Ok()
  {
    var n := st.cursor + 1 + Gap(st.cursor, w.view.newest);
    && n <= w.view.newest && Attempted(cfg, w, n) && w.send(n) == OutOfBuffers && st.stalls < STALL_MAX
  }

  lemma StallsAtOnceExactly(st: Sender, cfg: Settings, w: World)
    requires w.view.Ok() && st.cursor <= w.view.newest && !st.stalled
    ensures var r := Pass(st, cfg, w);
            r.stalled && r.cursor == st.cursor <==> StallsAtOnce(st, cfg, w)
  {
    var st0, n := SkipGap(st, w.view.newest), st.cursor + 1 + Gap(st.cursor, w.view.newest);
    if n <= w.view.newest {
      var st1 := Ship(st0, cfg, w, n);
      if st1.cursor == n {
        DrainLedger(st1, cfg, w, n + 1, if Attempted(cfg, w, n) then BURST_MAX - 1 else BURST_MAX);
      }
    }
  }

  /** Conservation. From a nonzero cursor every line passed is counted once, as
      sent, filtered, aged out or failed. A pass that stalls counts the attempt it
      will repeat; and one that stalls at once counts the gap in front of it, too. */
  lemma PassLedger(st: Sender, cfg: Settings, w: World)
    requires w.view.Ok() && 0 < st.cursor <= w.view.newest && !st.stalled
    ensures var r := Pass(st, cfg, w);
            && st.cursor <= r.cursor <= w.view.newest
            && r.Counted() == st.Counted() + (r.cursor - st.cursor)
                              + (if r.stalled then 1 else 0)
                              + (if StallsAtOnce(st, cfg, w) then Gap(st.cursor, w.view.newest) else 0)
  {
    var next := st.cursor + 1 + Gap(st.cursor, w.view.newest);
    DrainLedger(SkipGap(st, w.view.newest), cfg, w, next, BURST_MAX);
    StallsAtOnceExactly(st, cfg, w);
  }

  /** The next pass counts that gap again: of two passes, the first of which stalls at
      once, the counters have grown by the lines passed, the attempts that stalled, and
      the whole gap once more. */
  lemma GapIsCountedAgain(st: Sender, cfg: Settings, w: World, cfg2: Settings, w2: World)
    requires w.view.Ok() && w2.view.Ok() && 0 < st.cursor <= w.view.newest <= w2.view.newest
    requires !st.stalled && StallsAtOnce(st, cfg, w)
    ensures var r1 := Pass(st, cfg, w);
            var st2 := Wake(r1);
            var r2 := Pass(st2, cfg2, w2);
            && r1.cursor == st.cursor <= r2.cursor
            && (!StallsAtOnce(st2, cfg2, w2) ==>
                  r2.Counted() == st.Counted() + (r2.cursor - st.cursor) + 1 + (if r2.stalled then 1 else 0)
                                  + Gap(st.cursor, w.view.newest))
  {
    StallsAtOnceExactly(st, cfg, w);
    PassLedger(st, cfg, w);
    PassLedger(Wake(Pass(st, cfg, w)), cfg2, w2);
  }

  /** That does happen: 71 lines have left the ring, the first one left finds no
      buffers, and the next pass goes through. */
  lemma SeventyOneLinesTooMany(cfg: Settings)
    requires cfg.minSeverity >= 3
    ensures var view := View(seq(200, _ => Line('E', 0, "", "")), 200, _ => 200);
            var st := FRESH.(cursor := 1);
            var r1 := Pass(st, cfg, World(view, _ => OutOfBuffers));
            var r2 := Pass(Wake(r1), cfg, World(view, _ => Delivered));
            && r2.cursor >= 1 && !r2.stalled
            && r2.Counted() == (r2.cursor - 1) + 1 + 71
  {
    var view := View(seq(200, _ => Line('E', 0, "", "")), 200, _ => 200);
    var w1, w2 := World(view, _ => OutOfBuffers), World(view, _ => Delivered);
    var st := FRESH.(cursor := 1);
    assert view.Fetch(73) == Some(view.log[72]) && Gap(1, 200) == 71;
    GapIsCountedAgain(st, cfg, w1, cfg, w2);
    var st2, next := Wake(Pass(st, cfg, w1)), 73;
    StallsAtOnceExactly(st, cfg, w1);
    DeliveredNeverStalls(SkipGap(st2, 200), cfg, w2, next, BURST_MAX);
  }

  lemma {:induction false} DeliveredNeverStalls(st: Sender, cfg: Settings, w: World, n: nat, budget: nat)
    requires w.view.Ok() && n <= w.view.newest + 1 && !st.stalled && forall k :: w.send(k) == Delivered
    ensures !Drain(st, cfg, w, n, budget).stalled
    decreases w.view.newest + 1 - n
  {
    if n <= w.view.newest && budget > 0 {
      DeliveredNeverStalls(Ship(st, cfg, w, n), cfg, w, n + 1, if Attempted(cfg, w, n) then budget - 1 else budget);
    }
  }

  /** A fresh start misses nothing: it counts from the oldest line held. */
  lemma FirstPassLedger(st: Sender, cfg: Settings, w: World)
    requires w.view.Ok() && st.cursor == 0 && !st.stalled
    ensures var r := Pass(st, cfg, w);
            && r.cursor <= w.view.newest
            && (r.cursor > 0 ==> r.cursor >= Oldest(w.view.newest)
                                 && r.Counted() == st.Counted() + (r.cursor - (Oldest(w.view.newest) - 1))
                                                   + (if r.stalled then 1 else 0))
  {
    DrainLedger(st, cfg, w, 1 + Gap(0, w.view.newest), BURST_MAX);
  }

  // ---- what is on the wire ----

  /** The datagram is the framed text of the line whose number it has. */
  ghost predicate Carries(d: Datagram, log: seq<Line>) {
    1 <= d.n <= |log| && d.text == Frame(d.under, log[d.n - 1], d.n)
  }

  /** Of an earlier enabled period, or of the same one and a lower number. */
  predicate Earlier(period: nat, n: nat, period2: nat, n2: nat) {
    period < period2 || (period == period2 && n < n2)
  }

  /** Strictly increasing line numbers in each enabled period, none ahead of the cursor. */
  ghost predicate InOrder(wire: seq<Datagram>, period: nat, cursor: nat) {
    && (forall k | 0 <= k < |wire| :: Earlier(wire[k].period, wire[k].n, period, cursor + 1))
    && (forall j, k | 0 <= j < k < |wire| :: Earlier(wire[j].period, wire[j].n, wire[k].period, wire[k].n))
  }

  ghost predicate WireOk(st: Sender, log: seq<Line>) {
    InOrder(st.wire, st.period, st.cursor) && forall d | d in st.wire :: Carries(d, log)
  }

  lemma AppendInOrder(wire: seq<Datagram>, cursor: nat, d: Datagram)
    requires InOrder(wire, d.period, cursor) && cursor < d.n
    ensures InOrder(wire + [d], d.period, d.n)
  {
  }

  lemma ShipWire(st: Sender, cfg: Settings, w: World, n: nat)
    requires w.view.Ok() && st.cursor < n && WireOk(st, w.view.log)
    ensures WireOk(Ship(st, cfg, w, n), w.view.log)
  {
    var r, line := Ship(st, cfg, w, n), w.view.Fetch(n);
    if Attempted(cfg, w, n) && w.send(n) == Delivered {
      var d := Datagram(st.period, n, cfg, Frame(cfg, line.value, n));
      assert Carries(d, w.view.log);
      AppendInOrder(st.wire, st.cursor, d);
      assert r.wire == st.wire + [d];
    } else {
      assert r.wire == st.wire;
    }
  }

  lemma {:induction false} DrainWire(st: Sender, cfg: Settings, w: World, n: nat, budget: nat)
    requires w.view.Ok() && 0 < n <= w.view.newest + 1 && st.cursor < n
    requires WireOk(st, w.view.log)
    ensures WireOk(Drain(st, cfg, w, n, budget), w.view.log)
    decreases w.view.newest + 1 - n
  {
    if n <= w.view.newest && budget > 0 {
      var st1 := Ship(st, cfg, w, n);
      ShipWire(st, cfg, w, n);
      if st1.cursor == n {
        DrainWire(st1, cfg, w, n + 1, if Attempted(cfg, w, n) then budget - 1 else budget);
      }
    }
  }

  lemma PassWire(st: Sender, cfg: Settings, w: World)
    requires w.view.Ok() && st.cursor <= w.view.newest && WireOk(st, w.view.log)
    ensures WireOk(Pass(st, cfg, w), w.view.log)
  {
    var next := st.cursor + 1 + Gap(st.cursor, w.view.newest);
    DrainWire(SkipGap(st, w.view.newest), cfg, w, next, BURST_MAX);
  }

  // ---- the task around it ----

  /** The task clears the stall mark when it next wakes. */
  function Wake(st: Sender): Sender {
    st.(stalled := false)
  }

  /** New settings: turning the sender on starts over from what the ring holds. */
  function Reload(st: Sender, was: Settings, cfg: Settings): Sender {
    if cfg.enabled && cfg.serverIp != 0 && !was.enabled then st.(cursor := 0, period := st.period + 1) else st
  }

  predicate Ready(cfg: Settings, bound: bool) {
    cfg.enabled && bound
  }

  /** What one turn of the task meets: the settings in force, and a pass. */
  datatype Turn = Turn(cfg: Settings, bound: bool, world: World)

  function TakeTurn(st: Sender, was: Settings, t: Turn): Sender
    requires t.world.view.Ok() && st.cursor <= t.world.view.newest
  {
    var st1 := Reload(st, was, t.cfg);
    if Ready(t.cfg, t.bound) then Pass(Wake(st1), t.cfg, t.world) else st1
  }

  /** Successive turns race one log; the ring never shrinks. */
  ghost predicate Racing(st: Sender, ts: seq<Turn>, log: seq<Line>) {
    && (forall k | 0 <= k < |ts| ::
          && ts[k].world.view.Ok() && ts[k].world.view.log == log && st.cursor <= ts[k].world.view.newest)
    && (forall j, k | 0 <= j < k < |ts| :: ts[j].world.view.newest <= ts[k].world.view.newest)
  }

  lemma PassStaysBehind(st: Sender, cfg: Settings, w: World)
    requires w.view.Ok() && st.cursor <= w.view.newest
    ensures st.cursor <= Pass(Wake(st), cfg, w).cursor <= w.view.newest
  {
    if st.cursor == 0 {
      FirstPassLedger(Wake(st), cfg, w);
    } else {
      PassLedger(Wake(st), cfg, w);
    }
  }

  lemma TurnStaysBehind(st: Sender, was: Settings, t: Turn)
    requires t.world.view.Ok() && st.cursor <= t.world.view.newest
    ensures TakeTurn(st, was, t).cursor <= t.world.view.newest
  {
    PassStaysBehind(Reload(st, was, t.cfg), t.cfg, t.world);
  }

  function Run(st: Sender, was: Settings, ts: seq<Turn>, log: seq<Line>): Sender
    requires Racing(st, ts, log)
    decreases |ts|
  {
    if ts == [] then st
    else
      TurnStaysBehind(st, was, ts[0]);
      Run(TakeTurn(st, was, ts[0]), ts[0].cfg, ts[1..], log)
  }

  lemma TurnWire(st: Sender, was: Settings, t: Turn)
    requires t.world.view.Ok() && st.cursor <= t.world.view.newest && WireOk(st, t.world.view.log)
    ensures WireOk(TakeTurn(st, was, t), t.world.view.log)
  {
    var st1 := Wake(Reload(st, was, t.cfg));
    assert WireOk(st1, t.world.view.log);
    PassWire(st1, t.cfg, t.world);
  }

  /** Over any run of turns against a racing writer, whatever becomes of the settings:
      within one enabled period no line is sent twice or out of order, and each datagram
      carries exactly the line with its number, framed under the settings of its time. */
  lemma {:induction false} RunWire(st: Sender, was: Settings, ts: seq<Turn>, log: seq<Line>)
    requires Racing(st, ts, log) && WireOk(st, log)
    ensures WireOk(Run(st, was, ts, log), log)
    decreases |ts|
  {
    if ts != [] {
      TurnStaysBehind(st, was, ts[0]);
      TurnWire(st, was, ts[0]);
      RunWire(TakeTurn(st, was, ts[0]), ts[0].cfg, ts[1..], log);
    }
  }

  // ---- the backlog drains ----

  lemma {:induction false} DrainStalls(st: Sender, cfg: Settings, w: World, n: nat, budget: nat)
    requires w.view.Ok() && 0 < n <= w.view.newest + 1 && st.cursor < n
    requires st.stalls <= STALL_MAX && !st.stalled
    ensures var r := Drain(st, cfg, w, n, budget);
            && r.stalls <= STALL_MAX
            && (r.cursor == st.cursor && n <= w.view.newest && budget > 0 ==> r.stalls == st.stalls + 1)
    decreases w.view.newest + 1 - n
  {
    if n <= w.view.newest && budget > 0 {
      var st1 := Ship(st, cfg, w, n);
      if st1.cursor == n {
        DrainStalls(st1, cfg, w, n + 1, if Attempted(cfg, w, n) then budget - 1 else budget);
        DrainLedger(st1, cfg, w, n + 1, if Attempted(cfg, w, n) then budget - 1 else budget);
      }
    }
  }

  /** Whatever `sendto` says, a pass that starts with a backlog makes it smaller,
      or uses up one of the stalls allowed. */
  lemma PassProgress(st: Sender, cfg: Settings, w: World)
    requires w.view.Ok() && st.cursor < w.view.newest && st.stalls <= STALL_MAX
    ensures var r := Pass(Wake(st), cfg, w);
            && r.stalls <= STALL_MAX
            && (r.cursor > st.cursor
                || (r.cursor == st.cursor && r.stalls == st.stalls + 1 && r.stalled))
  {
    var st1 := SkipGap(Wake(st), w.view.newest);
    var next := st.cursor + 1 + Gap(st.cursor, w.view.newest);
    PassStaysBehind(st, cfg, w);
    DrainStalls(st1, cfg, w, next, BURST_MAX);
    DrainLedger(st1, cfg, w, next, BURST_MAX);
  }

  /** With no new lines, four turns per line of backlog always drain it, for a sender
      that stays enabled and bound. */
  lemma {:induction false} BacklogDrains(st: Sender, was: Settings, ts: seq<Turn>, log: seq<Line>, newest: nat)
    requires Racing(st, ts, log) && st.stalls <= STALL_MAX && st.cursor <= newest && was.enabled
    requires forall k | 0 <= k < |ts| :: ts[k].world.view.newest == newest && Ready(ts[k].cfg, ts[k].bound)
    requires |ts| + st.stalls >= (STALL_MAX + 1) * (newest - st.cursor)
    ensures Run(st, was, ts, log).cursor == newest
    decreases |ts|
  {
    if ts != [] {
      TurnStaysBehind(st, was, ts[0]);
      if st.cursor < newest {
        PassProgress(st, ts[0].cfg, ts[0].world);
      } else {
        NothingToDo(st, ts[0].cfg, ts[0].world);
      }
      BacklogDrains(TakeTurn(st, was, ts[0]), ts[0].cfg, ts[1..], log, newest);
    }
  }

  lemma NothingToDo(st: Sender, cfg: Settings, w: World)
    requires w.view.Ok() && st.cursor == w.view.newest
    ensures Pass(Wake(st), cfg, w) == Wake(st)
  {
  }

  // ---- turning it on ----

  lemma {:induction false} DrainKeepsWire(st: Sender, cfg: Settings, w: World, n: nat, budget: nat)
    requires w.view.Ok() && n <= w.view.newest + 1
    ensures st.wire <= Drain(st, cfg, w, n, budget).wire
    decreases w.view.newest + 1 - n
  {
    if n <= w.view.newest && budget > 0 && Ship(st, cfg, w, n).cursor == n {
      DrainKeepsWire(Ship(st, cfg, w, n), cfg, w, n + 1, if Attempted(cfg, w, n) then budget - 1 else budget);
    }
  }

  /** Turning the sender on replays what the ring still holds: if the oldest line can
      be read, passes the filter and is accepted, it is the next datagram. */
  lemma TurningOnReplays(st: Sender, was: Settings, cfg: Settings, w: World)
    requires w.view.Ok() && st.cursor <= w.view.newest && w.view.newest > 0
    requires !was.enabled && cfg.enabled && cfg.serverIp != 0
    requires var n := Oldest(w.view.newest); Attempted(cfg, w, n) && w.send(n) == Delivered
    ensures var r := TakeTurn(st, was, Turn(cfg, true, w));
            |r.wire| > |st.wire| && r.wire[|st.wire|].n == Oldest(w.view.newest)
  {
    var st1, n := Wake(Reload(st, was, cfg)), Oldest(w.view.newest);
    var st2 := Ship(st1, cfg, w, n);
    assert st2.wire[|st.wire|].n == n;
    DrainKeepsWire(st2, cfg, w, n + 1, BURST_MAX - 1);
  }

  class SyslogSender {
    var cursor: nat
    var stalls: nat
    var passStalled: bool
    var sent: nat
    var filtered: nat
    var agedOut: nat
    var sendFail: nat
    var lastSendFailed: bool
    ghost var period: nat
    ghost var wire: seq<Datagram>

    ghost function State(): Sender
      reads this
    {
      Sender(cursor, stalls, passStalled, sent, filtered, agedOut, sendFail, lastSendFailed, period, wire)
    }

    constructor ()
      ensures State() == FRESH
    {
      cursor, stalls, passStalled := 0, 0, false;
      sent, filtered, agedOut, sendFail, lastSendFailed := 0, 0, 0, 0, false;
      period, wire := 0, [];
    }

    /** New settings arrive. */
    method ReloadConfig(was: Settings, cfg: Settings)
      modifies this`cursor, this`period
      ensures State() == Reload(old(State()), was, cfg)
    {
      if cfg.enabled && cfg.serverIp != 0 {
        if !was.enabled {
          cursor, period := 0, period + 1;
        }
      }
    }

    /** Accounts for one line; `stop` ends the pass where it is. */
    method ShipLine(cfg: Settings, w: World, n: nat) returns (attempted: bool, stop: bool)
      requires w.view.Ok() && cursor != n
      modifies this
      ensures State() == Ship(old(State()), cfg, w, n)
      ensures attempted == Attempted(cfg, w, n) && stop == (cursor != n)
    {
      attempted, stop := false, false;
      var line := w.view.Fetch(n);
      if line.None? {
        agedOut, cursor := agedOut + 1, n;
        return;
      }
      if Severity(line.value.level) > cfg.minSeverity {
        filtered, cursor := filtered + 1, n;
        return;
      }
      attempted := true;
      var result := w.send(n);
      lastSendFailed := result != Delivered;
      if result != Delivered {
        sendFail := sendFail + 1;
        if result == OutOfBuffers && stalls < STALL_MAX {
          stalls, passStalled, stop := stalls + 1, true, true;
          return;
        }
      } else {
        sent, stalls := sent + 1, 0;
        wire := wire + [Datagram(period, n, cfg, Frame(cfg, line.value, n))];
      }
      cursor := n;
    }

    /** One line of a pass, and what is left of the budget. */
    method DrainLine(cfg: Settings, w: World, n: nat, budget: nat) returns (left: nat, stop: bool)
      requires w.view.Ok() && cursor < n <= w.view.newest && budget > 0
      modifies this
      ensures Drain(old(State()), cfg, w, n, budget) ==
              if stop then State() else Drain(State(), cfg, w, n + 1, left)
      ensures !stop ==> cursor == n
    {
      DrainNext(State(), cfg, w, n, budget);
      var attempted: bool;
      attempted, stop := ShipLine(cfg, w, n);
      left := if attempted then budget - 1 else budget;
    }

    /** The budgeted loop of a pass, from line `next` on. */
    method DrainFrom(cfg: Settings, w: World, next: nat)
      requires w.view.Ok() && cursor < next <= w.view.newest + 1
      modifies this
      ensures State() == Drain(old(State()), cfg, w, next, BURST_MAX)
    {
      ghost var end := Drain(State(), cfg, w, next, BURST_MAX);
      var budget, n := BURST_MAX, next;
      while n <= w.view.newest && budget > 0
        invariant cursor < n <= w.view.newest + 1
        invariant Drain(State(), cfg, w, n, budget) == end
        decreases w.view.newest + 1 - n
      {
        var stop: bool;
        budget, stop := DrainLine(cfg, w, n, budget);
        if stop {
          return;
        }
        n := n + 1;
      }
    }

    /** Where the pass starts, past the lines that left the ring meanwhile. */
    method FirstLine(newest: nat) returns (next: nat)
      modifies this`agedOut
      ensures State() == SkipGap(old(State()), newest)
      ensures next == cursor + 1 + Gap(cursor, newest)
    {
      next := cursor + 1;
      if next < Oldest(newest) {
        if cursor != 0 {
          agedOut := agedOut + (Oldest(newest) - next);
        }
        next := Oldest(newest);
      }
    }

    /** One pass; true while lines remain. */
    method DrainPass(cfg: Settings, w: World) returns (more: bool)
      requires w.view.Ok() && cursor <= w.view.newest
      modifies this
      ensures State() == Pass(old(State()), cfg, w)
      ensures more == (cursor < w.view.newest)
    {
      var next := FirstLine(w.view.newest);
      DrainFrom(cfg, w, next);
      more := cursor < w.view.newest;
    }

    /** One turn of the task while no line is being written: passes until the
        backlog is gone or one stalls. Disabled or unbound, it touches nothing. */
    method TaskTurn(cfg: Settings, bound: bool, w: World)
      requires w.view.Ok() && cursor <= w.view.newest && stalls <= STALL_MAX
      modifies this
      ensures !Ready(cfg, bound) ==> State() == old(State())
      ensures Ready(cfg, bound) ==> cursor == w.view.newest || passStalled
      ensures old(cursor) <= cursor <= w.view.newest && stalls <= STALL_MAX
      ensures WireOk(old(State()), w.view.log) ==> WireOk(State(), w.view.log)
    {
      if Ready(cfg, bound) {
        passStalled := false;
        var more := DrainOnce(cfg, w);
        while more && !passStalled
          invariant old(cursor) <= cursor <= w.view.newest && stalls <= STALL_MAX
          invariant more == (cursor < w.view.newest)
          invariant WireOk(old(State()), w.view.log) ==> WireOk(State(), w.view.log)
          decreases w.view.newest - cursor, if passStalled then 0 else 1
        {
          more := DrainOnce(cfg, w);
        }
      }
    }

    /** One pass of a turn that has not stalled, and what it is known to keep. */
    method DrainOnce(cfg: Settings, w: World) returns (more: bool)
      requires w.view.Ok() && cursor <= w.view.newest && stalls <= STALL_MAX && !passStalled
      modifies this
      ensures State() == Pass(old(State()), cfg, w)
      ensures more == (cursor < w.view.newest) && stalls <= STALL_MAX
      ensures old(cursor) <= cursor <= w.view.newest
      ensures old(cursor) < w.view.newest ==> old(cursor) < cursor || passStalled
      ensures WireOk(old(State()), w.view.log) ==> WireOk(State(), w.view.log)
    {
      ghost var st := State();
      assert Wake(st) == st;
      PassStaysBehind(st, cfg, w);
      if st.cursor < w.view.newest {
        PassProgress(st, cfg, w);
      } else {
        NothingToDo(st, cfg, w);
      }
      if WireOk(st, w.view.log) {
        PassWire(st, cfg, w);
      }
      more := DrainPass(cfg, w);
    }
  }
}

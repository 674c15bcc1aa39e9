/** `/api/logs`: batches of log lines packed into one fixed response buffer for
    readers that keep their own cursor. */
module WebLogs {
  import opened Bytes
  import opened Decimal
  import opened Json
  import opened LogText
  import opened LogAssembly

  const RESP_SIZE: nat := 4096
  const TRAILER_MAX: nat := 320
  const GAP_MAX: nat := 32

  /** One element of "lines": a line, or a count of lines lost in its place. */
  datatype Item = Gap(count: nat) | Entry(n: nat, line: Line)

  datatype Batch = Batch(items: seq<Item>, gap: nat, next: nat)

  // ---- what a batch looks like ----

  const OPENING := "{\"lines\":["

  function Text(item: Item): string {
    match item
    case Gap(count) => "{\"gap\":" + Dec(count) + "}"
    case Entry(n, line) =>
      EntryHead(n, line) + Escape(line.tag) + "\",\"m\":\"" + Escape(line.msg) + "\"}"
  }

  function EntryHead(n: nat, line: Line): string {
    "{\"n\":" + Dec(n) + ",\"l\":\"" + [line.level] + "\",\"t\":" + Dec(line.tsMs) + ",\"g\":\""
  }

  function Comma(items: seq<Item>): string {
    if items == [] then "" else ","
  }

  function Packed(items: seq<Item>): string {
    if items == [] then OPENING
    else
      var init := items[..|items| - 1];
      Packed(init) + Comma(init) + Text(items[|items| - 1])
  }

  datatype Status = Status(
    missed: u32, level: string, serialLevel: string, maxLevel: string,
    syslogEnabled: bool, sent: u32, aged: u32, failed: u32, errno: int, backlog: u32)
  {
    predicate Ok() {
      && |level| <= 7 && |serialLevel| <= 7 && |maxLevel| <= 7
      && -0x8000_0000 <= errno < 0x8000_0000
    }
  }

  function Bool(b: bool): string {
    if b then "true" else "false"
  }

  /** `%d`. */
  function Signed(i: int): string {
    if i < 0 then "-" + Dec(-i) else Dec(i)
  }

  datatype Outcome = Outcome(items: seq<Item>, seqNo: nat, lost: nat, more: bool, restarted: bool)

  function LogFields(o: Outcome, s: Status): string {
    "],\"seq\":" + Dec(o.seqNo) + ",\"lost\":" + Dec(o.lost) + ",\"missed\":" + Dec(s.missed)
    + ",\"more\":" + Bool(o.more) + ",\"restarted\":" + Bool(o.restarted)
    + ",\"level\":\"" + s.level + "\",\"serial_level\":\"" + s.serialLevel
    + "\",\"max_level\":\"" + s.maxLevel + "\""
  }

  function SyslogFields(s: Status): string {
    ",\"syslog_enabled\":" + Bool(s.syslogEnabled) + ",\"syslog_sent\":" + Dec(s.sent)
    + ",\"syslog_aged\":" + Dec(s.aged) + ",\"syslog_failed\":" + Dec(s.failed)
    + ",\"syslog_errno\":" + Signed(s.errno) + ",\"syslog_backlog\":" + Dec(s.backlog)
  }

  function Document(o: Outcome, s: Status): string {
    Packed(o.items) + LogFields(o, s) + SyslogFields(s) + "}"
  }

  // ---- packing ----

  /** A view of a ring whose line numbers have not wrapped. */
  ghost predicate Readable(v: View) {
    && v.Ok() && |v.log| < U32
    && forall k | 0 <= k < |v.log| :: |v.log[k].tag| < TAG_MAX && |v.log[k].msg| < MSG_MAX
  }

  function Needed(line: Line): nat {
    64 + 6 * |line.tag| + 6 * |line.msg|
  }

  /** The line might not leave room for two gap entries and the trailer. */
  predicate Full(items: seq<Item>, line: Line) {
    |Packed(items)| + Needed(line) + 2 * GAP_MAX + TRAILER_MAX >= RESP_SIZE
  }

  function Flush(items: seq<Item>, gap: nat): seq<Item> {
    if gap > 0 then items + [Gap(gap)] else items
  }

  /** The loop ends at the newest line, or at a line left for the next poll. */
  predicate Stops(v: View, b: Batch)
    requires v.Ok()
  {
    b.next > v.newest || (v.Fetch(b.next).Some? && Full(b.items, v.Fetch(b.next).value))
  }

  /** One turn: a line that has left the ring is counted, any other is emitted. */
  function Turn(v: View, b: Batch): (r: Batch)
    requires v.Ok()
    ensures r.next == b.next + 1
  {
    var line := v.Fetch(b.next);
    if line.None? then Batch(b.items, b.gap + 1, b.next + 1)
    else Batch(Flush(b.items, b.gap) + [Entry(b.next, line.value)], 0, b.next + 1)
  }

  function Pack(v: View, b: Batch): (r: Batch)
    requires v.Ok() && b.next <= v.newest + 1
    ensures b.next <= r.next <= v.newest + 1
    decreases v.newest + 1 - b.next
  {
    if Stops(v, b) then b else Pack(v, Turn(v, b))
  }

  function Restarted(v: View, since: nat): bool {
    since > v.newest
  }

  function FirstLine(v: View, since: nat): nat {
    var next := if Restarted(v, since) then Oldest(v.newest) else since + 1;
    if next < Oldest(v.newest) then Oldest(v.newest) else next
  }

  /** Lines that left the ring since the reader's last poll; a fresh reader has
      lost nothing. */
  function Lost(v: View, since: nat): nat {
    if 0 < since && since + 1 < Oldest(v.newest) then Oldest(v.newest) - (since + 1) else 0
  }

  function Poll(v: View, since: nat): Outcome
    requires v.Ok()
  {
    var b := Pack(v, Batch([], 0, FirstLine(v, since)));
    Outcome(Flush(b.items, b.gap), b.next - 1, Lost(v, since), b.next <= v.newest, Restarted(v, since))
  }

  // ---- every line is accounted for, in its place ----

  /** The items run through the line numbers after `a` up to `b` without a hole:
      each entry is the next line, each gap stands for as many as it says. */
  ghost predicate Tiles(items: seq<Item>, a: nat, b: nat, log: seq<Line>)
    decreases |items|
  {
    if items == [] then a == b
    else
      match items[|items| - 1]
      case Gap(count) => 0 < count <= b && Tiles(items[..|items| - 1], a, b - count, log)
      case Entry(n, line) =>
        n == b && 0 < n <= |log| && line == log[n - 1] && Tiles(items[..|items| - 1], a, b - 1, log)
  }

  lemma FlushTiles(items: seq<Item>, gap: nat, a: nat, b: nat, log: seq<Line>)
    requires gap <= b && Tiles(items, a, b - gap, log)
    ensures Tiles(Flush(items, gap), a, b, log)
  {
    assert Flush(items, gap)[..|items|] == items;
  }

  lemma EntryTiles(items: seq<Item>, a: nat, n: nat, log: seq<Line>)
    requires 0 < n <= |log| && Tiles(items, a, n - 1, log)
    ensures Tiles(items + [Entry(n, log[n - 1])], a, n, log)
  {
    assert (items + [Entry(n, log[n - 1])])[..|items|] == items;
  }

  lemma EmitTiles(items: seq<Item>, gap: nat, a: nat, n: nat, line: Line, log: seq<Line>)
    requires gap < n <= |log| && Tiles(items, a, n - 1 - gap, log) && line == log[n - 1]
    ensures Tiles(Flush(items, gap) + [Entry(n, line)], a, n, log)
  {
    FlushTiles(items, gap, a, n - 1, log);
    EntryTiles(Flush(items, gap), a, n, log);
  }

  /** A batch stands for every line from `a` up to, but not including, its next. */
  ghost predicate Covers(b: Batch, a: nat, log: seq<Line>) {
    match b
    case Batch(items, gap, next) => gap < next && Tiles(items, a, next - 1 - gap, log)
  }

  lemma TurnTiles(v: View, b: Batch, a: nat)
    requires v.Ok() && Covers(b, a, v.log)
    ensures Covers(Turn(v, b), a, v.log)
  {
    var line := v.Fetch(b.next);
    if line.Some? {
      EmitTiles(b.items, b.gap, a, b.next, line.value, v.log);
    }
  }

  lemma {:induction false} PackTiles(v: View, b: Batch, a: nat)
    requires v.Ok() && b.next <= v.newest + 1 && Covers(b, a, v.log)
    ensures Covers(Pack(v, b), a, v.log)
    decreases v.newest + 1 - b.next
  {
    if !Stops(v, b) {
      TurnTiles(v, b, a);
      PackTiles(v, Turn(v, b), a);
    }
  }

  /** One response: its items run without a hole from the first line it starts at
      to the cursor it reports. For a reader with a valid cursor that line follows
      `since` plus what it calls lost; a fresh reader, or one from before a reboot,
      starts at the oldest line held and has lost nothing. */
  lemma PollTiles(v: View, since: nat)
    requires v.Ok()
    ensures var o := Poll(v, since);
            && FirstLine(v, since) - 1 <= o.seqNo <= v.newest
            && Tiles(o.items, FirstLine(v, since) - 1, o.seqNo, v.log)
            && (0 < since <= v.newest ==> FirstLine(v, since) - 1 == since + o.lost)
            && (since == 0 || since > v.newest ==> FirstLine(v, since) == Oldest(v.newest) && o.lost == 0)
  {
    var start := Batch([], 0, FirstLine(v, since));
    var b := Pack(v, start);
    PackTiles(v, start, start.next - 1);
    FlushTiles(b.items, b.gap, start.next - 1, b.next - 1, v.log);
  }

  // ---- the ledger ----

  function Entries(items: seq<Item>): nat {
    if items == [] then 0
    else Entries(items[..|items| - 1]) + if items[|items| - 1].Entry? then 1 else 0
  }

  function Gaps(items: seq<Item>): nat {
    if items == [] then 0
    else Gaps(items[..|items| - 1]) + if items[|items| - 1].Gap? then items[|items| - 1].count else 0
  }

  lemma {:induction false} TilesCount(items: seq<Item>, a: nat, b: nat, log: seq<Line>)
    requires Tiles(items, a, b, log)
    ensures b == a + Entries(items) + Gaps(items)
    decreases |items|
  {
    if items != [] {
      var init := items[..|items| - 1];
      match items[|items| - 1]
      case Gap(count) => TilesCount(init, a, b - count, log);
      case Entry(_, _) => TilesCount(init, a, b - 1, log);
    }
  }

  /** Conservation: for a reader with a cursor, the advance of the cursor is
      exactly what was lost, what was emitted and what the gaps stand for. */
  lemma PollLedger(v: View, since: nat)
    requires v.Ok() && 0 < since <= v.newest
    ensures var o := Poll(v, since); o.seqNo - since == o.lost + Entries(o.items) + Gaps(o.items)
  {
    PollTiles(v, since);
    TilesCount(Poll(v, since).items, FirstLine(v, since) - 1, Poll(v, since).seqNo, v.log);
  }

  /** A turn adds at most a gap, and the line itself exactly if it could be read. */
  lemma TurnEmits(v: View, b: Batch)
    requires v.Ok()
    ensures forall it | it in b.items :: it in Turn(v, b).items
    ensures forall it | it in Turn(v, b).items ::
              it in b.items || it.Gap? || (v.Fetch(b.next).Some? && it.n == b.next)
    ensures v.Fetch(b.next).Some? ==> Entry(b.next, v.log[b.next - 1]) in Turn(v, b).items
  {
    var items := Turn(v, b).items;
    if v.Fetch(b.next).Some? {
      assert items[|items| - 1] == Entry(b.next, v.log[b.next - 1]);
    }
  }

  lemma {:induction false} PackKeeps(v: View, b: Batch)
    requires v.Ok() && b.next <= v.newest + 1
    ensures forall it | it in b.items :: it in Pack(v, b).items
    ensures forall it | it in Pack(v, b).items :: it in b.items || it.Gap? || it.n >= b.next
    decreases v.newest + 1 - b.next
  {
    if !Stops(v, b) {
      TurnEmits(v, b);
      PackKeeps(v, Turn(v, b));
    }
  }

  /** What is known of line `n` once the batch has moved past it. */
  ghost predicate Settled(v: View, items: seq<Item>, n: nat)
    requires v.Ok() && 0 < n <= |v.log|
  {
    if v.Fetch(n).Some? then Entry(n, v.log[n - 1]) in items
    else forall it | it in items :: it.Gap? || it.n != n
  }

  lemma TurnSettles(v: View, b: Batch)
    requires v.Ok() && 0 < b.next <= v.newest && !Stops(v, b)
    requires forall it | it in b.items :: it.Gap? || it.n < b.next
    ensures Settled(v, Pack(v, b).items, b.next)
  {
    TurnEmits(v, b);
    PackKeeps(v, Turn(v, b));
  }

  lemma {:induction false} PackEmits(v: View, b: Batch, n: nat)
    requires v.Ok() && 0 < b.next <= v.newest + 1 && b.next <= n < Pack(v, b).next
    requires forall it | it in b.items :: it.Gap? || it.n < b.next
    ensures Settled(v, Pack(v, b).items, n)
    decreases v.newest + 1 - b.next
  {
    if n == b.next {
      TurnSettles(v, b);
    } else {
      TurnEmits(v, b);
      PackEmits(v, Turn(v, b), n);
    }
  }

  /** A batch holds exactly those lines of its span that could still be read. */
  lemma PollEmits(v: View, since: nat, n: nat)
    requires v.Ok() && FirstLine(v, since) <= n <= Poll(v, since).seqNo
    ensures v.Fetch(n).Some? <==> exists line :: Entry(n, line) in Poll(v, since).items
  {
    var start := Batch([], 0, FirstLine(v, since));
    var b, items := Pack(v, start), Poll(v, since).items;
    PackEmits(v, start, n);
    assert forall it | it in b.items :: it in items;
    if v.Fetch(n).Some? {
      assert Entry(n, v.log[n - 1]) in items;
    } else {
      forall line
        ensures Entry(n, line) !in items
      {
      }
    }
  }

  // ---- the buffer is never overrun ----

  lemma GapLength(count: u32)
    ensures |Text(Gap(count))| <= 18
  {
    DecOfU32(count);
  }

  lemma EntryLength(n: u32, line: Line)
    ensures |EntryHead(n, line)| <= 44
    ensures |Text(Entry(n, line))| + 1 <= Needed(line) - 10
  {
    DecOfU32(n);
    DecOfU32(line.tsMs);
  }

  /** The trailer recounted: at most 308 characters, 309 with its terminator, so
      the reservation holds, by 11 bytes. */
  lemma TrailerLength(o: Outcome, s: Status)
    requires s.Ok() && o.seqNo < U32 && o.lost < U32
    ensures |LogFields(o, s) + SyslogFields(s) + "}"| <= 308
    ensures 308 + 1 < TRAILER_MAX
  {
    LogFieldsLength(o, s);
    SyslogFieldsLength(s);
  }

  lemma LogFieldsLength(o: Outcome, s: Status)
    requires s.Ok() && o.seqNo < U32 && o.lost < U32
    ensures |LogFields(o, s)| <= 152
  {
    DecOfU32(o.seqNo);
    DecOfU32(o.lost);
    DecOfU32(s.missed);
  }

  lemma SyslogFieldsLength(s: Status)
    requires s.Ok()
    ensures |SyslogFields(s)| <= 155
  {
    DecOfU32(s.sent);
    DecOfU32(s.aged);
    DecOfU32(s.failed);
    DecOfU32(s.backlog);
    DecOfU32(if s.errno < 0 then -s.errno else s.errno);
  }

  /** Ten-digit numbers do occur, so no smaller count is an upper bound: in
      particular 287 is not one. */
  lemma TrailerLengthIsReached()
    ensures var big := 0xFFFF_FFFF;
            var o := Outcome([], big, big, false, false);
            var s := Status(big, "verbose", "verbose", "verbose", false, big, big, big, -0x8000_0000, big);
            s.Ok() && |LogFields(o, s) + SyslogFields(s) + "}"| == 308
  {
    DecLengthIs(0xFFFF_FFFF);
    DecLengthIs(0x8000_0000);
  }

  lemma DecLengthIs(n: nat)
    requires 1_000_000_000 <= n < 10_000_000_000
    ensures |Dec(n)| == 10
  {
    Powers();
    DecLength(n, 10);
    DecAtLeast(n, 10);
  }

  lemma {:induction false} DecAtLeast(n: nat, k: nat)
    requires k > 0 && n >= Pow10(k - 1)
    ensures |Dec(n)| >= k
  {
    if k > 1 {
      assert n >= 10;
      DecAtLeast(n / 10, k - 1);
    }
  }

  /** Room left by every turn of the packing loop. */
  predicate Roomy(items: seq<Item>) {
    |Packed(items)| + 2 * GAP_MAX + TRAILER_MAX < RESP_SIZE + 10
  }

  lemma TurnStaysRoomy(items: seq<Item>, gap: u32, n: u32, line: Line)
    requires Roomy(items) && !Full(items, line)
    ensures Roomy(Flush(items, gap) + [Entry(n, line)])
  {
    var items1 := Flush(items, gap);
    var items2 := items1 + [Entry(n, line)];
    GapLength(gap);
    EntryLength(n, line);
    assert items1 != items ==> items1[..|items|] == items;
    assert items2[..|items1|] == items1;
  }

  lemma TurnRoomy(v: View, b: Batch)
    requires Readable(v) && !Stops(v, b) && b.gap < b.next && Roomy(b.items)
    ensures Roomy(Turn(v, b).items) && Turn(v, b).gap < Turn(v, b).next
  {
    if v.Fetch(b.next).Some? {
      TurnStaysRoomy(b.items, b.gap, b.next, v.Fetch(b.next).value);
    }
  }

  lemma {:induction false} PackStaysRoomy(v: View, b: Batch)
    requires Readable(v) && b.next <= v.newest + 1 && b.gap < b.next && Roomy(b.items)
    ensures Roomy(Pack(v, b).items) && Pack(v, b).gap < U32
    decreases v.newest + 1 - b.next
  {
    if !Stops(v, b) {
      TurnRoomy(v, b);
      PackStaysRoomy(v, Turn(v, b));
    }
  }

  /** Whatever the ring holds, the whole document fits its buffer. */
  lemma DocumentFits(v: View, since: nat, s: Status)
    requires Readable(v) && s.Ok()
    ensures |Document(Poll(v, since), s)| < RESP_SIZE
  {
    var start := Batch([], 0, FirstLine(v, since));
    var b, o := Pack(v, start), Poll(v, since);
    PackStaysRoomy(v, start);
    FlushLength(b.items, b.gap);
    PollTiles(v, since);
    BodyFits(o, s);
  }

  lemma FlushLength(items: seq<Item>, gap: u32)
    ensures |Packed(Flush(items, gap))| <= |Packed(items)| + 19
  {
    GapLength(gap);
    var flushed := Flush(items, gap);
    assert flushed != items ==> flushed[..|items|] == items;
  }

  lemma BodyFits(o: Outcome, s: Status)
    requires s.Ok() && o.seqNo < U32 && o.lost < U32
    requires |Packed(o.items)| + 308 < RESP_SIZE
    ensures |Document(o, s)| < RESP_SIZE
  {
    TrailerLength(o, s);
    assert Document(o, s) == Packed(o.items) + (LogFields(o, s) + SyslogFields(s) + "}");
  }

  // ---- the reader gets on ----

  /** No line is too long for an empty batch, so a reader with lines waiting always
      gets past at least one. */
  lemma PollAdvances(v: View, since: nat)
    requires Readable(v) && since <= v.newest
    ensures var o := Poll(v, since);
            && since <= o.seqNo && (since < v.newest ==> since < o.seqNo)
            && (o.more <==> o.seqNo < v.newest)
  {
    PollTiles(v, since);
    var line := v.Fetch(FirstLine(v, since));
    assert FirstLine(v, since) <= v.newest && line.Some? ==> !Full([], line.value);
  }

  /** What a reader that keeps polling has been given, losses included. */
  function Received(vs: seq<View>, since: nat): seq<Item>
    requires forall k | 0 <= k < |vs| :: vs[k].Ok()
    decreases |vs|
  {
    if vs == [] then []
    else
      var o := Poll(vs[0], since);
      Flush([], o.lost) + o.items + Received(vs[1..], o.seqNo)
  }

  function Cursor(vs: seq<View>, since: nat): nat
    requires forall k | 0 <= k < |vs| :: vs[k].Ok()
    decreases |vs|
  {
    if vs == [] then since else Cursor(vs[1..], Poll(vs[0], since).seqNo)
  }

  /** Successive polls of one log that only grows. */
  ghost predicate Growing(vs: seq<View>, since: nat, log: seq<Line>) {
    && (forall k | 0 <= k < |vs| :: Readable(vs[k]) && vs[k].log == log && since <= vs[k].newest)
    && (forall j, k | 0 <= j < k < |vs| :: vs[j].newest <= vs[k].newest)
  }

  lemma {:induction false} TilesJoin(xs: seq<Item>, ys: seq<Item>, a: nat, b: nat, c: nat, log: seq<Line>)
    requires Tiles(xs, a, b, log) && Tiles(ys, b, c, log)
    ensures Tiles(xs + ys, a, c, log)
    decreases |ys|
  {
    if ys == [] {
      assert xs + ys == xs;
    } else {
      var init := ys[..|ys| - 1];
      assert (xs + ys)[..|xs + ys| - 1] == xs + init;
      match ys[|ys| - 1]
      case Gap(count) => TilesJoin(xs, init, a, b, c - count, log);
      case Entry(_, _) => TilesJoin(xs, init, a, b, c - 1, log);
    }
  }

  /** Over any run of polls, against any writer, a reader that echoes the cursor
      gets every line after its cursor exactly once and in order, or a count in
      its place. */
  lemma {:induction false} PollingTiles(vs: seq<View>, since: nat, log: seq<Line>)
    requires 0 < since && Growing(vs, since, log)
    ensures Tiles(Received(vs, since), since, Cursor(vs, since), log)
    decreases |vs|
  {
    if vs != [] {
      var o := Poll(vs[0], since);
      PollTiles(vs[0], since);
      PollAdvances(vs[0], since);
      FlushTiles([], o.lost, since, since + o.lost, log);
      TilesJoin(Flush([], o.lost), o.items, since, since + o.lost, o.seqNo, log);
      PollingTiles(vs[1..], o.seqNo, log);
      TilesJoin(Flush([], o.lost) + o.items, Received(vs[1..], o.seqNo), since, o.seqNo, Cursor(vs, since), log);
    }
  }

  /** While nothing is written, polling on `more` reaches the newest line within
      as many polls as there are lines. */
  lemma {:induction false} PollingCatchesUp(vs: seq<View>, since: nat, log: seq<Line>, newest: nat)
    requires Growing(vs, since, log) && since <= newest && |vs| >= newest - since
    requires forall k | 0 <= k < |vs| :: vs[k].newest == newest
    ensures Cursor(vs, since) == newest
    decreases |vs|
  {
    if vs != [] {
      PollTiles(vs[0], since);
      PollAdvances(vs[0], since);
      PollingCatchesUp(vs[1..], Poll(vs[0], since).seqNo, log, newest);
    }
  }

  // ---- the handler ----

  /** Appends what is known to fit. */
  method Put(resp: Response, text: string)
    requires resp.Valid() && resp.Body().Some? && |resp.Body().value| + |text| < resp.buf.Length
    modifies resp, resp.buf
    ensures resp.Valid() && resp.Body() == Some(old(resp.Body().value) + text)
  {
    resp.Append(text);
  }

  method PutEscaped(resp: Response, src: string)
    requires resp.Valid() && resp.Body().Some? && |resp.Body().value| + 6 * |src| < resp.buf.Length
    modifies resp, resp.buf
    ensures resp.Valid() && resp.Body() == Some(old(resp.Body().value) + Escape(src))
  {
    EscapedFits(resp.Body().value, src, resp.buf.Length);
    resp.AppendEscaped(src);
  }

  method PutGap(resp: Response, ghost items: seq<Item>, first: bool, count: u32)
    requires resp.Valid() && resp.Body() == Some(Packed(items)) && first == (items == [])
    requires |Packed(items)| + GAP_MAX < resp.buf.Length
    modifies resp, resp.buf
    ensures resp.Valid() && resp.Body() == Some(Packed(items + [Gap(count)]))
  {
    GapLength(count);
    assert (items + [Gap(count)])[..|items|] == items;
    assert Packed(items) + Comma(items) + Text(Gap(count)) == Packed(items) + (Comma(items) + Text(Gap(count)));
    Put(resp, (if first then "" else ",") + ("{\"gap\":" + Dec(count) + "}"));
  }

  method PutEntry(resp: Response, ghost items: seq<Item>, first: bool, n: u32, line: Line)
    requires resp.Valid() && resp.Body() == Some(Packed(items)) && first == (items == [])
    requires |Packed(items)| + Needed(line) < resp.buf.Length
    modifies resp, resp.buf
    ensures resp.Valid() && resp.Body() == Some(Packed(items + [Entry(n, line)]))
  {
    ghost var before := Packed(items);
    EntryLength(n, line);
    Put(resp, (if first then "" else ",") + EntryHead(n, line));
    PutEscaped(resp, line.tag);
    Put(resp, "\",\"m\":\"");
    PutEscaped(resp, line.msg);
    Put(resp, "\"}");
    EntryInParts(items, n, line);
  }

  lemma EntryInParts(items: seq<Item>, n: nat, line: Line)
    ensures Packed(items + [Entry(n, line)])
         == Packed(items) + (Comma(items) + EntryHead(n, line)) + Escape(line.tag)
            + "\",\"m\":\"" + Escape(line.msg) + "\"}"
  {
    assert (items + [Entry(n, line)])[..|items|] == items;
    Regroup(Packed(items), Comma(items), EntryHead(n, line), Escape(line.tag), "\",\"m\":\"",
            Escape(line.msg), "\"}");
  }

  lemma Regroup(a: string, c: string, h: string, t: string, x: string, m: string, y: string)
    ensures a + c + (h + t + x + m + y) == a + (c + h) + t + x + m + y
  {
  }

  /** One line, with the pending gap in front of it. */
  method EmitLine(resp: Response, v: View, ghost b: Batch, emitted: nat, gap: nat, next: nat, line: Line)
      returns (ghost r: Batch, now: nat)
    requires Readable(v) && b == Batch(b.items, gap, next) && gap < next <= v.newest && |b.items| == emitted
    requires v.Fetch(next) == Some(line) && !Full(b.items, line) && Roomy(b.items)
    requires resp.Valid() && resp.buf.Length == RESP_SIZE && resp.Body() == Some(Packed(b.items))
    modifies resp, resp.buf
    ensures resp.Valid() && r == Turn(v, b) && resp.Body() == Some(Packed(r.items)) && Roomy(r.items)
    ensures now == |r.items|
  {
    ghost var items := b.items;
    now := emitted;
    if gap > 0 {
      PutGap(resp, items, emitted == 0, gap);
      GapGrows(items, gap);
      now := now + 1;
    }
    PutEntry(resp, Flush(items, gap), now == 0, next, line);
    now := now + 1;
    r := Turn(v, b);
    TurnStaysRoomy(items, gap, next, line);
  }

  /** The packing loop, from the first line on. */
  method PackLines(resp: Response, v: View, start: nat) returns (ghost b: Batch, emitted: nat, gap: nat, next: nat)
    requires Readable(v) && 0 < start <= v.newest + 1
    requires resp.Valid() && resp.buf.Length == RESP_SIZE && resp.Body() == Some(OPENING)
    modifies resp, resp.buf
    ensures resp.Valid() && b == Pack(v, Batch([], 0, start))
    ensures resp.Body() == Some(Packed(b.items)) && Roomy(b.items) && b.gap < U32
    ensures emitted == |b.items| && gap == b.gap && next == b.next
  {
    ghost var goal := Pack(v, Batch([], 0, start));
    emitted, gap, next := 0, 0, start;
    b := Batch([], 0, start);
    while next <= v.newest
      invariant start <= next <= v.newest + 1 && resp.Valid()
      invariant b.next == next && b.gap == gap < next && |b.items| == emitted
      invariant Pack(v, b) == goal
      invariant Roomy(b.items) && resp.Body() == Some(Packed(b.items))
    {
      var line := v.Fetch(next);
      if line.None? {
        b, gap, next := Turn(v, b), gap + 1, next + 1;
        continue;
      }
      if resp.off + Needed(line.value) + 2 * GAP_MAX + TRAILER_MAX >= RESP_SIZE {
        break;
      }
      b, emitted := EmitLine(resp, v, b, emitted, gap, next, line.value);
      gap, next := 0, next + 1;
    }
  }

  lemma GapGrows(items: seq<Item>, gap: u32)
    requires gap > 0
    ensures |Packed(Flush(items, gap))| <= |Packed(items)| + 19
  {
    GapLength(gap);
    assert Flush(items, gap)[..|items|] == items;
  }

  /** The lines, and the marker for those dropped with nothing after them. */
  method PackBatch(resp: Response, v: View, start: nat) returns (ghost items: seq<Item>, next: nat)
    requires Readable(v) && 0 < start <= v.newest + 1
    requires resp.Valid() && resp.buf.Length == RESP_SIZE && resp.Body() == Some(OPENING)
    modifies resp, resp.buf
    ensures resp.Valid() && resp.Body() == Some(Packed(items))
    ensures var b := Pack(v, Batch([], 0, start)); items == Flush(b.items, b.gap) && next == b.next
  {
    var b, emitted, gap, at := PackLines(resp, v, start);
    if gap > 0 {
      PutGap(resp, b.items, emitted == 0, gap);
    }
    items, next := Flush(b.items, b.gap), at;
  }

  method Position(v: View, since: nat) returns (next: nat, lost: nat, restarted: bool)
    requires v.Ok()
    ensures next == FirstLine(v, since) && 0 < next <= v.newest + 1
    ensures lost == Lost(v, since) && restarted == Restarted(v, since)
  {
    var oldest := Oldest(v.newest);
    restarted := since > v.newest;
    next := if restarted then oldest else since + 1;
    lost := 0;
    if next < oldest {
      lost := if since == 0 then 0 else oldest - next;
      next := oldest;
    }
  }

  /** The handler's answer: always the whole document, never truncated. */
  method LogsGet(v: View, since: u32, s: Status) returns (resp: Response)
    requires Readable(v) && s.Ok()
    ensures fresh(resp) && resp.Valid()
    ensures resp.Body() == Some(Document(Poll(v, since), s))
  {
    var start, lost, restarted := Position(v, since);
    resp := new Response(RESP_SIZE);
    Put(resp, OPENING);
    assert "" + OPENING == OPENING;
    var items, next := PackBatch(resp, v, start);
    DocumentFits(v, since, s);
    PutTrailer(resp, items, Outcome([], next - 1, lost, next <= v.newest, restarted), s);
  }

  method PutTrailer(resp: Response, ghost items: seq<Item>, o: Outcome, s: Status)
    requires resp.Valid() && resp.buf.Length == RESP_SIZE && resp.Body() == Some(Packed(items))
    requires |Document(o.(items := items), s)| < RESP_SIZE
    modifies resp, resp.buf
    ensures resp.Valid() && resp.Body() == Some(Document(o.(items := items), s))
  {
    assert LogFields(o.(items := items), s) == LogFields(o, s);
    Put(resp, LogFields(o, s));
    Put(resp, SyslogFields(s));
    Put(resp, "}");
  }
}

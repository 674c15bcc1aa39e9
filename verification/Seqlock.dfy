/**
 The packet path's quarantine table: a hand-written sequence lock over four MAC
 slots, each two words. One publisher rewrites it word by word while any number of
 readers scan it word by word; every load and store below is one atomic step.

 Generations are unbounded here, so a reader cannot sleep through a wrap-around.
 */
module Seqlock {
  import opened Bytes

  const SLOTS: nat := 4
  const LIVE: u32 := 0x8000_0000

  // ---- packing ----

  function Lo(mac: Mac): u32 {
    FromLe(mac[..4])
  }

  function Hi(mac: Mac): (h: u32)
    ensures h >= LIVE
  {
    LIVE + FromLe(mac[4..])
  }

  lemma {:induction false} FromLeInjective(a: seq<byte>, b: seq<byte>)
    requires |a| == |b| && FromLe(a) == FromLe(b)
    ensures a == b
  {
    if a != [] {
      FromLeInjective(a[1..], b[1..]);
      assert a == [a[0]] + a[1..] && b == [b[0]] + b[1..];
    }
  }

  /** Two words name exactly one address. */
  lemma PackingInjective(a: Mac, b: Mac)
    requires Lo(a) == Lo(b) && Hi(a) == Hi(b)
    ensures a == b
  {
    FromLeInjective(a[..4], b[..4]);
    FromLeInjective(a[4..], b[4..]);
    assert a == a[..4] + a[4..] && b == b[..4] + b[4..];
  }

  /** Word `j` of the table that holds `macs`: even words are lo, odd ones hi. */
  function Packed(macs: seq<Mac>, j: nat): u32 {
    if j / 2 >= |macs| then 0 else if j % 2 == 0 then Lo(macs[j / 2]) else Hi(macs[j / 2])
  }

  function Clamp(macs: seq<Mac>): (r: seq<Mac>)
    ensures |r| <= SLOTS && r <= macs
  {
    if |macs| > SLOTS then macs[..SLOTS] else macs
  }

  // ---- the machine ----

  datatype Shared = Shared(words: seq<u32>, gen: nat, any: bool)

  /** Where the publisher is: raising the flag, opening the rewrite, storing word
      `k`, closing it, lowering the flag. */
  datatype Phase = Idle | Raise | Open | Store(k: nat) | Close | Lower

  datatype At =
    | LoadAny
    | LoadGen
    | LoadLo(i: nat)
    | LoadHi(i: nat)
    | Recheck(i: nat)
    | Done(drop: bool, settled: bool)

  /** A frame being judged. `gen` is the generation its scan started from; `settled`
      notes that a scan that found nothing ended with the table still at it. */
  datatype Reader = Reader(mac: Mac, at: At, gen: nat)

  /** `history[g / 2]` is the set that became readable at even generation `g`. */
  datatype World = World(
    sh: Shared, phase: Phase, macs: seq<Mac>, history: seq<seq<Mac>>, readers: seq<Reader>)

  datatype Action = Begin(macs: seq<Mac>) | Publisher | Arrive(mac: Mac) | Read(r: nat)

  const START := World(Shared(seq(2 * SLOTS, _ => 0), 0, false), Idle, [], [[]], [])

  function PublisherStep(w: World): World
    requires |w.sh.words| == 2 * SLOTS
  {
    match w.phase
    case Idle => w
    case Raise => w.(sh := w.sh.(any := true), phase := Open)
    case Open => w.(sh := w.sh.(gen := w.sh.gen + 1), phase := Store(0))
    case Store(k) =>
      if k < 2 * SLOTS then
        w.(sh := w.sh.(words := w.sh.words[k := Packed(w.macs, k)]), phase := Store(k + 1))
      else w.(phase := Close)
    case Close =>
      w.(sh := w.sh.(gen := w.sh.gen + 1), history := w.history + [w.macs],
         phase := if w.macs == [] then Lower else Idle)
    case Lower => w.(sh := w.sh.(any := false), phase := Idle)
  }

  function ReaderStep(r: Reader, sh: Shared): Reader
    requires |sh.words| == 2 * SLOTS
  {
    match r.at
    case LoadAny => r.(at := if sh.any then LoadGen else Done(false, false))
    case LoadGen =>
      if sh.gen % 2 == 1 then r.(at := Done(false, false)) else r.(at := LoadLo(0), gen := sh.gen)
    case LoadLo(i) =>
      if i >= SLOTS then r.(at := Done(false, sh.gen == r.gen))
      else r.(at := if sh.words[2 * i] == Lo(r.mac) then LoadHi(i) else LoadLo(i + 1))
    case LoadHi(i) =>
      if i >= SLOTS then r
      else r.(at := if sh.words[2 * i + 1] == Hi(r.mac) then Recheck(i) else LoadLo(i + 1))
    case Recheck(_) => r.(at := Done(sh.gen == r.gen, false))
    case Done(_, _) => r
  }

  function Do(w: World, a: Action): (r: World)
    requires |w.sh.words| == 2 * SLOTS
    ensures |r.sh.words| == 2 * SLOTS
  {
    match a
    case Begin(macs) =>
      if w.phase != Idle then w
      else w.(macs := Clamp(macs), phase := if macs == [] then Open else Raise)
    case Publisher => PublisherStep(w)
    case Arrive(mac) => w.(readers := w.readers + [Reader(mac, LoadAny, 0)])
    case Read(i) =>
      if i >= |w.readers| then w
      else w.(readers := w.readers[i := ReaderStep(w.readers[i], w.sh)])
  }

  function Run(w: World, actions: seq<Action>): (r: World)
    requires |w.sh.words| == 2 * SLOTS
    ensures |r.sh.words| == 2 * SLOTS
    decreases |actions|
  {
    if actions == [] then w else Run(Do(w, actions[0]), actions[1..])
  }

  // ---- invariants ----

  ghost predicate WritingPhase(p: Phase) {
    p.Store? || p.Close?
  }

  /** How many words of the new set are in place. */
  function Progress(p: Phase): nat {
    match p
    case Store(k) => k
    case Close => 2 * SLOTS
    case _ => 0
  }

  ghost predicate PublisherOk(w: World) {
    && |w.sh.words| == 2 * SLOTS && |w.macs| <= SLOTS
    && |w.history| == w.sh.gen / 2 + 1
    && (w.sh.gen % 2 == 1 <==> WritingPhase(w.phase))
    && Progress(w.phase) <= 2 * SLOTS
    && (w.phase == Raise ==> w.macs != []) && (w.phase == Lower ==> w.macs == [])
    && (w.phase == Lower ==> w.history[|w.history| - 1] == [])
    && (forall g | 0 <= g < |w.history| :: |w.history[g]| <= SLOTS)
    && (forall j | 0 <= j < 2 * SLOTS ::
          w.sh.words[j] == if j < Progress(w.phase) then Packed(w.macs, j)
                           else Packed(w.history[|w.history| - 1], j))
    && (!w.sh.any ==>
          && w.history[|w.history| - 1] == []
          && (w.phase in {Open, Close, Lower} || w.phase.Store? ==> w.macs == []))
  }

  ghost predicate Holds(set_: seq<Mac>, i: nat, mac: Mac) {
    Packed(set_, 2 * i) == Lo(mac) && Packed(set_, 2 * i + 1) == Hi(mac)
  }

  /** A scan from generation `r.gen` has passed the slots before `i`: while the
      generation has not moved on, none of them holds the address. */
  ghost predicate Scanned(r: Reader, i: nat, gen: nat, history: seq<seq<Mac>>)
    requires |history| == gen / 2 + 1
  {
    && i <= SLOTS && r.gen % 2 == 0 && r.gen <= gen
    && (r.gen == gen ==> forall k | 0 <= k < i :: !Holds(history[gen / 2], k, r.mac))
  }

  ghost predicate ReaderOk(r: Reader, gen: nat, history: seq<seq<Mac>>)
    requires |history| == gen / 2 + 1
  {
    match r.at
    case LoadAny => true
    case LoadGen => true
    case LoadLo(i) => Scanned(r, i, gen, history)
    case LoadHi(i) =>
      && Scanned(r, i, gen, history) && i < SLOTS
      && (r.gen == gen ==> Packed(history[gen / 2], 2 * i) == Lo(r.mac))
    case Recheck(i) =>
      && Scanned(r, i, gen, history) && i < SLOTS
      && (r.gen == gen ==> Holds(history[gen / 2], i, r.mac))
    case Done(drop, settled) =>
      (drop || settled) ==>
        && r.gen % 2 == 0 && r.gen <= gen
        && (drop ==> r.mac in history[r.gen / 2])
        && (settled ==> r.mac !in history[r.gen / 2])
  }

  ghost predicate Inv(w: World) {
    && PublisherOk(w)
    && forall k | 0 <= k < |w.readers| :: ReaderOk(w.readers[k], w.sh.gen, w.history)
  }

  lemma HoldsMeansMember(macs: seq<Mac>, i: nat, mac: Mac)
    requires Holds(macs, i, mac)
    ensures mac in macs
  {
    assert (2 * i) / 2 == i && (2 * i + 1) / 2 == i;
    if i < |macs| {
      PackingInjective(macs[i], mac);
    }
  }

  lemma MemberMeansHolds(macs: seq<Mac>, mac: Mac)
    requires mac in macs
    ensures exists i | 0 <= i < |macs| :: Holds(macs, i, mac)
  {
    var i :| 0 <= i < |macs| && macs[i] == mac;
    assert (2 * i) / 2 == i && (2 * i + 1) / 2 == i;
    assert Holds(macs, i, mac);
  }

  lemma PublisherKeepsOk(w: World)
    requires PublisherOk(w)
    ensures PublisherOk(PublisherStep(w))
  {
  }

  /** A publisher step never breaks what a reader knows. */
  lemma PublisherKeepsReaders(w: World, r: Reader)
    requires PublisherOk(w) && ReaderOk(r, w.sh.gen, w.history)
    ensures ReaderOk(r, PublisherStep(w).sh.gen, PublisherStep(w).history)
  {
  }

  lemma LoadHiKeepsOk(w: World, r: Reader)
    requires PublisherOk(w) && ReaderOk(r, w.sh.gen, w.history) && r.at.LoadHi?
    ensures ReaderOk(ReaderStep(r, w.sh), w.sh.gen, w.history)
  {
  }

  lemma LoadLoKeepsOk(w: World, r: Reader)
    requires PublisherOk(w) && ReaderOk(r, w.sh.gen, w.history) && r.at.LoadLo?
    ensures ReaderOk(ReaderStep(r, w.sh), w.sh.gen, w.history)
  {
    var now := w.history[w.sh.gen / 2];
    if r.at == LoadLo(SLOTS) && r.gen == w.sh.gen && r.mac in now {
      MemberMeansHolds(now, r.mac);
    }
  }

  lemma RecheckKeepsOk(w: World, r: Reader)
    requires PublisherOk(w) && ReaderOk(r, w.sh.gen, w.history) && r.at.Recheck?
    ensures ReaderOk(ReaderStep(r, w.sh), w.sh.gen, w.history)
  {
    if r.gen == w.sh.gen {
      HoldsMeansMember(w.history[w.sh.gen / 2], r.at.i, r.mac);
    }
  }

  lemma ReaderKeepsOk(w: World, r: Reader)
    requires PublisherOk(w) && ReaderOk(r, w.sh.gen, w.history)
    ensures ReaderOk(ReaderStep(r, w.sh), w.sh.gen, w.history)
  {
    match r.at
    case LoadLo(_) => LoadLoKeepsOk(w, r);
    case LoadHi(_) => LoadHiKeepsOk(w, r);
    case Recheck(_) => RecheckKeepsOk(w, r);
    case _ =>
  }

  lemma DoKeepsInv(w: World, a: Action)
    requires Inv(w)
    ensures Inv(Do(w, a))
  {
    match a
    case Begin(_) =>
    case Publisher =>
      PublisherKeepsOk(w);
      forall k | 0 <= k < |w.readers|
        ensures ReaderOk(w.readers[k], PublisherStep(w).sh.gen, PublisherStep(w).history)
      {
        PublisherKeepsReaders(w, w.readers[k]);
      }
    case Arrive(_) =>
    case Read(i) =>
      if i < |w.readers| {
        ReaderKeepsOk(w, w.readers[i]);
      }
  }

  lemma {:induction false} RunKeepsInv(w: World, actions: seq<Action>)
    requires Inv(w)
    ensures Inv(Run(w, actions))
    decreases |actions|
  {
    if actions != [] {
      DoKeepsInv(w, actions[0]);
      RunKeepsInv(Do(w, actions[0]), actions[1..]);
    }
  }

  /** In every interleaving: a frame is dropped only if its address was in one
      whole published set, that of the even generation its scan started from; and
      a scan that ends at that generation without a match proves it was not. */
  lemma VerdictsAreJustified(actions: seq<Action>, k: nat)
    requires k < |Run(START, actions).readers| && Run(START, actions).readers[k].at.Done?
    ensures var w := Run(START, actions);
            var r := w.readers[k];
            && (r.at.drop ==>
                  r.gen % 2 == 0 && r.gen / 2 < |w.history| && r.mac in w.history[r.gen / 2])
            && (r.at.settled ==>
                  r.gen % 2 == 0 && r.gen / 2 < |w.history| && r.mac !in w.history[r.gen / 2])
  {
    RunKeepsInv(START, actions);
  }

  /** In every interleaving, a lowered flag means that no slot is live. */
  lemma FlagDownMeansEmpty(actions: seq<Action>)
    ensures var sh := Run(START, actions).sh;
            !sh.any ==> forall j | 0 <= j < 2 * SLOTS :: sh.words[j] == 0
  {
    RunKeepsInv(START, actions);
  }

  // ---- the publisher and the test as plain code ----

  class Table {
    const words: array<u32>
    var gen: nat
    var any: bool
    ghost var shown: seq<Mac>

    /** Between publishes, the table holds exactly the set last published. */
    ghost predicate Valid()
      reads this, words
    {
      && words.Length == 2 * SLOTS && gen % 2 == 0 && |shown| <= SLOTS
      && (forall j | 0 <= j < 2 * SLOTS :: words[j] == Packed(shown, j))
      && (any <==> shown != [])
    }

    constructor ()
      ensures Valid() && shown == [] && fresh(words)
    {
      words := new u32[2 * SLOTS](_ => 0);
      gen, any, shown := 0, false, [];
    }

    method Publish(macs: seq<Mac>)
      requires Valid()
      modifies this, words
      ensures Valid() && shown == Clamp(macs) && gen == old(gen) + 2
    {
      var armed := Clamp(macs);
      if armed != [] {
        any := true;
      }
      gen := gen + 1;
      for i := 0 to SLOTS
        invariant gen == old(gen) + 1 && any == (old(any) || armed != [])
        invariant forall j | 0 <= j < 2 * i :: words[j] == Packed(armed, j)
      {
        assert (2 * i) / 2 == i && (2 * i + 1) / 2 == i;
        if i < |armed| {
          words[2 * i] := Lo(armed[i]);
          words[2 * i + 1] := Hi(armed[i]);
        } else {
          words[2 * i], words[2 * i + 1] := 0, 0;
        }
      }
      gen := gen + 1;
      if armed == [] {
        any := false;
      }
      shown := armed;
    }

    method MacIsQuarantined(mac: Mac) returns (drop: bool)
      requires Valid()
      ensures drop <==> mac in shown
    {
      if !any {
        return false;
      }
      var start := gen;
      var lo, hi := Lo(mac), Hi(mac);
      for i := 0 to SLOTS
        invariant forall k | 0 <= k < i :: !Holds(shown, k, mac)
      {
        if words[2 * i] == lo && words[2 * i + 1] == hi {
          HoldsMeansMember(shown, i, mac);
          return gen == start;
        }
      }
      if mac in shown {
        MemberMeansHolds(shown, mac);
      }
      return false;
    }
  }
}

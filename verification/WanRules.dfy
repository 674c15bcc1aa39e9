/**
 The WAN filter's rule set: two buffers, a pointer to the live one, several writers
 behind a mutex, and readers that take the pointer once and no lock. Everything
 that touches shared memory is one word-sized step, in any interleaving; the saved
 port list has a lock of its own and is read in one step.
 */
module WanRules {
  import opened Bytes

  /** A rule set as words: twelve rules, their count, the resolver, and up or down. */
  const WORDS: nat := 15
  const DNS: nat := 13
  const UP: nat := 14

  type Image = w: seq<int> | |w| == WORDS witness seq(WORDS, _ => 0)

  /** One of the two buffers. */
  type Side = x: int | 0 <= x < 2

  /** What a set says about the link: resolver, and up or down. */
  function Link(img: Image): (int, int) {
    (img[DNS], img[UP])
  }

  /** And what it says about the ports. */
  function PortsOf(img: Image): Ports {
    img[..DNS]
  }

  /** Where a writer is. The first three belong to a change of the port list alone,
      which republishes what it finds about the link; `c` is how many sets had been
      published when it took the pointer. Every writer fetches the saved port list
      before it waits for the lock. */
  datatype Phase =
    | Load
    | TakeUp(c: nat)
    | TakeDns(c: nat, up: int)
    | Fetch
    | Waiting
    | Zero(k: nat)
    | Fill(k: nat)
    | Store
    | Give
    | Finished

  type Ports = p: seq<int> | |p| == DNS witness seq(DNS, _ => 0)

  const NO_PORTS: Ports := [0, 0, 0, 0, 0, 0, 0, 0, 0, 0, 0, 0, 0]
  const ZEROES: Image := NO_PORTS + [0, 0]

  /** `origin` is the `c` of a change of the port list once it has read the link, and
      `clean` whether fewer than two publishes had begun to write by then; `fetched` is
      which of the saved lists it publishes, once it has read that. */
  datatype Writer = Writer(
    ports: Ports, dns: int, up: int, phase: Phase, target: Side,
    origin: Option<nat>, clean: bool, fetched: Option<nat>)
  {
    function Wanted(): Image {
      ports + [dns, up]
    }

    predicate Inside() {
      phase.Zero? || phase.Fill? || phase.Store? || phase.Give?
    }

    predicate Writing() {
      phase.Zero? || phase.Fill? || phase.Store?
    }
  }

  function Arriving(dns: int, up: int, phase: Phase): Writer {
    Writer(NO_PORTS, dns, up, phase, 0, None, false, None)
  }

  /** A reader that holds the pointer it took when `c` sets had been published. */
  datatype Reader = Reader(holding: bool, c: nat, buf: Side, seen: seq<(nat, int)>)

  /** `history` is every set published, the empty first one included; `requests`
      the sets writers got the lock for, in that order; `lists` every port list
      saved. */
  datatype World = World(
    bufs: seq<Image>, active: Side, holder: Option<nat>,
    writers: seq<Writer>, readers: seq<Reader>,
    history: seq<Image>, requests: seq<Image>, lists: seq<Ports>)
  {
    predicate Shaped() {
      |bufs| == 2 && |history| > 0 && |lists| > 0
    }

    /** The port list in the configuration. */
    function SavedList(): Ports
      requires |lists| > 0
    {
      lists[|lists| - 1]
    }

    /** How many sets have been published since the start. */
    function Stores(): nat
      requires |history| > 0
    {
      |history| - 1
    }
  }

  const START := World([ZEROES, ZEROES], 0, None, [], [], [ZEROES], [], [NO_PORTS])

  datatype Action =
    | Publish(dns: int, up: int)
    | SavePorts(ports: Ports)
    | PortsChanged
    | Write(i: nat)
    | Arrive
    | TakePointer(r: nat)
    | Read(r: nat, j: nat)

  /** One step of writer `i`; a writer waiting for a lock that is held stays put.
      `mutex` is false if it could not be created, and then nobody waits. */
  function WriterStep(w: World, i: nat, mutex: bool): World
    requires w.Shaped() && i < |w.writers|
  {
    var a := w.writers[i];
    match a.phase
    case Load => w.(writers := w.writers[i := a.(phase := TakeUp(w.Stores()), target := w.active)])
    case TakeUp(c) =>
      w.(writers := w.writers[i := a.(phase := TakeDns(c, w.bufs[a.target][UP]))])
    case TakeDns(c, up) =>
      w.(writers := w.writers[i := a.(
        phase := Fetch, dns := w.bufs[a.target][DNS], up := up,
        origin := Some(c), clean := |w.requests| <= c + 1)])
    case Fetch =>
      w.(writers := w.writers[i := Writer(
        w.SavedList(), a.dns, a.up, Waiting, a.target, a.origin, a.clean, Some(|w.lists| - 1))])
    case Waiting =>
      if mutex && w.holder.Some? then w
      else
        w.(holder := if mutex then Some(i) else None,
           writers := w.writers[i := a.(phase := Zero(0), target := 1 - w.active)],
           requests := w.requests + [a.Wanted()])
    case Zero(k) =>
      if k >= WORDS then w.(writers := w.writers[i := a.(phase := Fill(0))])
      else
        w.(bufs := w.bufs[a.target := w.bufs[a.target][k := 0]],
           writers := w.writers[i := a.(phase := Zero(k + 1))])
    case Fill(k) =>
      if k >= WORDS then w.(writers := w.writers[i := a.(phase := Store)])
      else
        w.(bufs := w.bufs[a.target := w.bufs[a.target][k := a.Wanted()[k]]],
           writers := w.writers[i := a.(phase := Fill(k + 1))])
    case Store =>
      w.(active := a.target, history := w.history + [w.bufs[a.target]],
         writers := w.writers[i := a.(phase := Give)])
    case Give => w.(holder := None, writers := w.writers[i := a.(phase := Finished)])
    case Finished => w
  }

  function ReaderStep(w: World, r: nat, j: nat): World
    requires w.Shaped() && r < |w.readers|
  {
    var a := w.readers[r];
    if !a.holding || j >= WORDS then w
    else w.(readers := w.readers[r := a.(seen := a.seen + [(j, w.bufs[a.buf][j])])])
  }

  function Do(w: World, a: Action, mutex: bool): (r: World)
    requires w.Shaped()
    ensures r.Shaped()
  {
    match a
    case Publish(dns, up) => w.(writers := w.writers + [Arriving(dns, up, Fetch)])
    case SavePorts(ports) => w.(lists := w.lists + [ports])
    case PortsChanged => w.(writers := w.writers + [Arriving(0, 0, Load)])
    case Write(i) => if i < |w.writers| then WriterStep(w, i, mutex) else w
    case Arrive => w.(readers := w.readers + [Reader(false, 0, 0, [])])
    case TakePointer(r) =>
      if r < |w.readers| then w.(readers := w.readers[r := Reader(true, w.Stores(), w.active, [])]) else w
    case Read(r, j) => if r < |w.readers| then ReaderStep(w, r, j) else w
  }

  function Run(w: World, actions: seq<Action>, mutex: bool): (r: World)
    requires w.Shaped()
    ensures r.Shaped()
    decreases |actions|
  {
    if actions == [] then w else Run(Do(w, actions[0], mutex), actions[1..], mutex)
  }

  // ---- invariants, with the mutex ----

  /** How far writer `a` has got in the buffer that is not live. */
  ghost predicate WriterOk(w: World, i: nat, a: Writer)
    requires w.Shaped()
  {
    && (a.Inside() ==> w.holder == Some(i))
    && (a.Writing() ==>
          && a.target == 1 - w.active && |w.requests| == w.Stores() + 1
          && w.requests[w.Stores()] == a.Wanted())
    && (a.phase.Give? ==> |w.requests| == w.Stores())
    && (a.phase.Zero? ==> forall j | 0 <= j < a.phase.k && j < WORDS :: w.bufs[a.target][j] == 0)
    && (a.phase.Fill? ==>
          a.phase.k <= WORDS && forall j | 0 <= j < a.phase.k :: w.bufs[a.target][j] == a.Wanted()[j])
    && (a.phase.Store? ==> w.bufs[a.target] == a.Wanted())
    && (a.phase.TakeUp? || a.phase.TakeDns? ==> a.phase.c <= w.Stores() && a.target == a.phase.c % 2)
    && (a.phase.TakeDns? && |w.requests| <= a.phase.c + 1 ==> a.phase.up == w.history[a.phase.c][UP])
    && (a.origin.Some? ==> a.origin.value <= w.Stores())
    && (a.origin.Some? && a.clean ==> Link(a.Wanted()) == Link(w.history[a.origin.value]))
    && (a.phase.Waiting? || a.Inside() || a.phase.Finished? ==> a.fetched.Some?)
    && (a.fetched.Some? ==> a.fetched.value < |w.lists| && a.ports == w.lists[a.fetched.value])
  }

  /** Everything read through the pointer belongs to the set that was live when it
      was taken, as long as fewer than two publishes have begun to write since. */
  ghost predicate ReaderOk(w: World, a: Reader)
    requires w.Shaped()
  {
    a.holding ==>
      && a.c <= w.Stores() && a.buf == a.c % 2
      && (|w.requests| <= a.c + 1 ==>
            forall k | 0 <= k < |a.seen| ::
              a.seen[k].0 < WORDS && a.seen[k].1 == w.history[a.c][a.seen[k].0])
  }

  /** The live buffer holds the last set published; while nobody writes, the other
      one still holds the set before it. */
  ghost predicate BuffersOk(w: World)
    requires w.Shaped()
  {
    && w.active == w.Stores() % 2
    && w.bufs[w.active] == w.history[w.Stores()]
    && w.Stores() <= |w.requests| <= w.Stores() + 1
    && (|w.requests| == w.Stores() && w.Stores() > 0 ==>
          w.bufs[1 - w.active] == w.history[w.Stores() - 1])
    && (w.holder.None? ==> |w.requests| == w.Stores())
    && (forall n | 0 <= n < w.Stores() :: w.history[n + 1] == w.requests[n])
  }

  ghost predicate HolderOk(w: World) {
    w.holder.Some? ==> w.holder.value < |w.writers| && w.writers[w.holder.value].Inside()
  }

  ghost predicate Inv(w: World) {
    && w.Shaped() && BuffersOk(w) && HolderOk(w)
    && (forall i | 0 <= i < |w.writers| :: WriterOk(w, i, w.writers[i]))
    && (forall r | 0 <= r < |w.readers| :: ReaderOk(w, w.readers[r]))
  }

  /** A buffer taken when `c` sets had been published still holds the last of them,
      as long as fewer than two publishes have begun to write since. */
  lemma StillHolds(w: World, c: nat)
    requires w.Shaped() && BuffersOk(w) && c <= w.Stores() && |w.requests| <= c + 1
    ensures w.bufs[c % 2] == w.history[c]
  {
  }

  lemma WriterKeepsBuffers(w: World, i: nat)
    requires Inv(w) && i < |w.writers|
    ensures BuffersOk(WriterStep(w, i, true))
  {
    assert WriterOk(w, i, w.writers[i]);
    if w.writers[i].phase.Waiting? && w.holder.None? {
      assert |w.requests| == w.Stores();
    }
  }

  lemma WriterKeepsHolder(w: World, i: nat)
    requires Inv(w) && i < |w.writers|
    ensures HolderOk(WriterStep(w, i, true))
  {
    assert WriterOk(w, i, w.writers[i]);
  }

  lemma LinkReadKeepsItself(w: World, i: nat)
    requires Inv(w) && i < |w.writers|
    requires var p := w.writers[i].phase; p.Load? || p.TakeUp? || p.TakeDns?
    ensures WriterOk(WriterStep(w, i, true), i, WriterStep(w, i, true).writers[i])
  {
    var a := w.writers[i];
    assert WriterOk(w, i, a);
    if !a.phase.Load? && |w.requests| <= a.phase.c + 1 {
      StillHolds(w, a.phase.c);
    }
  }

  lemma FillKeepsItself(w: World, i: nat)
    requires Inv(w) && i < |w.writers| && (w.writers[i].phase.Zero? || w.writers[i].phase.Fill?)
    ensures WriterOk(WriterStep(w, i, true), i, WriterStep(w, i, true).writers[i])
  {
    assert WriterOk(w, i, w.writers[i]);
  }

  lemma FetchKeepsItself(w: World, i: nat)
    requires Inv(w) && i < |w.writers| && (w.writers[i].phase.Fetch? || w.writers[i].phase.Waiting?)
    ensures WriterOk(WriterStep(w, i, true), i, WriterStep(w, i, true).writers[i])
  {
    assert WriterOk(w, i, w.writers[i]);
  }

  lemma WriterKeepsItself(w: World, i: nat)
    requires Inv(w) && i < |w.writers|
    ensures WriterOk(WriterStep(w, i, true), i, WriterStep(w, i, true).writers[i])
  {
    var p := w.writers[i].phase;
    assert WriterOk(w, i, w.writers[i]);
    if p.Load? || p.TakeUp? || p.TakeDns? {
      LinkReadKeepsItself(w, i);
    } else if p.Zero? || p.Fill? {
      FillKeepsItself(w, i);
    } else if p.Fetch? || p.Waiting? {
      FetchKeepsItself(w, i);
    }
  }

  lemma WriterKeepsOthers(w: World, i: nat, k: nat)
    requires Inv(w) && i < |w.writers| && k < |w.writers| && k != i
    ensures WriterOk(WriterStep(w, i, true), k, w.writers[k])
  {
    assert WriterOk(w, i, w.writers[i]) && WriterOk(w, k, w.writers[k]);
  }

  lemma WriterKeepsReader(w: World, i: nat, r: nat)
    requires Inv(w) && i < |w.writers| && r < |w.readers|
    ensures ReaderOk(WriterStep(w, i, true), w.readers[r])
  {
    assert ReaderOk(w, w.readers[r]);
  }

  lemma WriterKeepsInv(w: World, i: nat)
    requires Inv(w) && i < |w.writers|
    ensures Inv(WriterStep(w, i, true))
  {
    var v := WriterStep(w, i, true);
    WriterKeepsBuffers(w, i);
    WriterKeepsHolder(w, i);
    forall k | 0 <= k < |v.writers|
      ensures WriterOk(v, k, v.writers[k])
    {
      if k == i {
        WriterKeepsItself(w, i);
      } else {
        WriterKeepsOthers(w, i, k);
      }
    }
    forall r | 0 <= r < |v.readers|
      ensures ReaderOk(v, v.readers[r])
    {
      WriterKeepsReader(w, i, r);
    }
  }

  lemma ReaderKeepsInv(w: World, r: nat, j: nat)
    requires Inv(w) && r < |w.readers|
    ensures Inv(ReaderStep(w, r, j))
  {
    var a, v := w.readers[r], ReaderStep(w, r, j);
    assert ReaderOk(w, a);
    if a.holding && |w.requests| <= a.c + 1 {
      StillHolds(w, a.c);
    }
    assert forall k | 0 <= k < |v.writers| :: WriterOk(w, k, w.writers[k]) ==> WriterOk(v, k, v.writers[k]);
  }

  lemma DoKeepsInv(w: World, a: Action)
    requires Inv(w)
    ensures Inv(Do(w, a, true))
  {
    match a
    case Write(i) =>
      if i < |w.writers| {
        WriterKeepsInv(w, i);
      }
    case Read(r, j) =>
      if r < |w.readers| {
        ReaderKeepsInv(w, r, j);
      }
    case _ => ArrivalKeepsInv(w, a);
  }

  /** `v` is `w` with more writers, readers or saved lists. */
  ghost predicate Grown(w: World, v: World) {
    && v.Shaped() && w.Shaped() && v.bufs == w.bufs && v.active == w.active && v.holder == w.holder
    && v.history == w.history && v.requests == w.requests
    && |w.lists| <= |v.lists| && v.lists[..|w.lists|] == w.lists
  }

  lemma GrownKeepsWriter(w: World, v: World, i: nat, a: Writer)
    requires Grown(w, v) && WriterOk(w, i, a)
    ensures WriterOk(v, i, a)
  {
    if a.fetched.Some? {
      assert v.lists[a.fetched.value] == v.lists[..|w.lists|][a.fetched.value];
    }
  }

  lemma ArrivalKeepsInv(w: World, a: Action)
    requires Inv(w) && !a.Write? && !a.Read?
    ensures Inv(Do(w, a, true))
  {
    var v := Do(w, a, true);
    assert Grown(w, v);
    forall k | 0 <= k < |v.writers|
      ensures WriterOk(v, k, v.writers[k])
    {
      if k < |w.writers| {
        GrownKeepsWriter(w, v, k, w.writers[k]);
      }
    }
    forall r | 0 <= r < |v.readers|
      ensures ReaderOk(v, v.readers[r])
    {
      if r < |w.readers| {
        assert ReaderOk(w, w.readers[r]);
      }
    }
  }

  lemma {:induction false} RunKeepsInv(w: World, actions: seq<Action>)
    requires Inv(w)
    ensures Inv(Run(w, actions, true))
    decreases |actions|
  {
    if actions != [] {
      DoKeepsInv(w, actions[0]);
      RunKeepsInv(Do(w, actions[0], true), actions[1..]);
    }
  }

  // ---- what it gives ----

  /** In every interleaving: no step of any writer changes the live buffer. */
  lemma LiveBufferIsNeverWritten(actions: seq<Action>, i: nat)
    requires i < |Run(START, actions, true).writers|
    ensures var w := Run(START, actions, true);
            WriterStep(w, i, true).bufs[w.active] == w.bufs[w.active]
  {
    RunKeepsInv(START, actions);
    var w := Run(START, actions, true);
    assert WriterOk(w, i, w.writers[i]);
  }

  /** Every published set is, whole, the one its writer brought to the lock, in the
      order in which they got it. (What a change of the port list brings is its own
      matter: see below.) */
  lemma PublishedAreRequested(actions: seq<Action>)
    ensures var w := Run(START, actions, true);
            && |w.history| <= |w.requests| + 1
            && (forall n | 1 <= n < |w.history| :: w.history[n] == w.requests[n - 1])
            && w.bufs[w.active] == w.history[|w.history| - 1]
  {
    RunKeepsInv(START, actions);
    var w := Run(START, actions, true);
    forall n | 1 <= n < |w.history|
      ensures w.history[n] == w.requests[n - 1]
    {
      assert w.history[(n - 1) + 1] == w.requests[n - 1];
    }
  }

  /** In every interleaving: a reader that takes the pointer once sees one whole
      published set, as long as fewer than two publishes have begun to write since. */
  lemma ReaderSeesOneSet(actions: seq<Action>, r: nat, k: nat)
    requires var w := Run(START, actions, true);
             && r < |w.readers| && w.readers[r].holding && k < |w.readers[r].seen|
             && |w.requests| <= w.readers[r].c + 1
    ensures var w := Run(START, actions, true);
            var a := w.readers[r];
            && a.c < |w.history| && a.seen[k].0 < WORDS
            && a.seen[k].1 == w.history[a.c][a.seen[k].0]
  {
    RunKeepsInv(START, actions);
    var w := Run(START, actions, true);
    assert ReaderOk(w, w.readers[r]);
  }

  /** The resolver a set offers. */
  function Resolver(img: Image): int {
    if img[UP] != 0 then img[DNS] else 0
  }

  /** A reader that looks at up or down and then at the resolver gives the resolver of
      one published set, never one set's under another's link. */
  lemma ResolverIsOfOneSet(actions: seq<Action>, r: nat)
    requires var w := Run(START, actions, true);
             && r < |w.readers| && w.readers[r].holding && |w.requests| <= w.readers[r].c + 1
             && |w.readers[r].seen| == 2 && w.readers[r].seen[0].0 == UP && w.readers[r].seen[1].0 == DNS
    ensures var w := Run(START, actions, true);
            var a := w.readers[r];
            a.c < |w.history| && (if a.seen[0].1 != 0 then a.seen[1].1 else 0) == Resolver(w.history[a.c])
  {
    ReaderSeesOneSet(actions, r, 0);
    ReaderSeesOneSet(actions, r, 1);
  }

  /** What a change of the port list republishes about the link is, whole, what was
      live when it took the pointer, if fewer than two publishes had begun by the time
      both words were read, whatever was published since. */
  lemma PortsChangeRepublishes(actions: seq<Action>, i: nat)
    requires var w := Run(START, actions, true);
             i < |w.writers| && w.writers[i].origin.Some? && w.writers[i].clean
    ensures var w := Run(START, actions, true);
            var c := w.writers[i].origin.value;
            c < |w.history| && Link(w.writers[i].Wanted()) == Link(w.history[c])
  {
    RunKeepsInv(START, actions);
    var w := Run(START, actions, true);
    assert WriterOk(w, i, w.writers[i]);
  }

  /** So its publication leaves the link as it finds it if and only if the link is
      what it was when the pointer was taken; otherwise it undoes what came between. */
  lemma LinkKeptExactly(actions: seq<Action>, i: nat)
    requires var w := Run(START, actions, true);
             && i < |w.writers| && w.writers[i].phase.Store?
             && w.writers[i].origin.Some? && w.writers[i].clean
    ensures var w := Run(START, actions, true);
            var v := WriterStep(w, i, true);
            var c := w.writers[i].origin.value;
            && c < |w.history|
            && (Link(v.bufs[v.active]) == Link(w.bufs[w.active]) <==>
                  Link(w.bufs[w.active]) == Link(w.history[c]))
  {
    RunKeepsInv(START, actions);
    var w := Run(START, actions, true);
    assert WriterOk(w, i, w.writers[i]);
  }

  /** Whoever publishes, the port list is, whole, one that was saved; and it is the one
      saved now if and only if the list its writer fetched is. */
  lemma PortListKeptExactly(actions: seq<Action>, i: nat)
    requires var w := Run(START, actions, true);
             i < |w.writers| && w.writers[i].phase.Store?
    ensures var w := Run(START, actions, true);
            var v := WriterStep(w, i, true);
            && w.writers[i].fetched.Some? && w.writers[i].fetched.value < |w.lists|
            && PortsOf(v.bufs[v.active]) == w.lists[w.writers[i].fetched.value]
            && (PortsOf(v.bufs[v.active]) == v.SavedList() <==>
                  w.lists[w.writers[i].fetched.value] == w.SavedList())
  {
    RunKeepsInv(START, actions);
    var w := Run(START, actions, true);
    assert WriterOk(w, i, w.writers[i]);
  }

  // ---- runs that show what goes wrong ----

  function Turns(i: nat, n: nat): (actions: seq<Action>)
    ensures |actions| == n && forall k | 0 <= k < n :: actions[k] == Write(i)
  {
    seq(n, _ => Write(i))
  }

  lemma {:induction false} RunJoins(w: World, xs: seq<Action>, ys: seq<Action>, mutex: bool)
    requires w.Shaped()
    ensures Run(w, xs + ys, mutex) == Run(Run(w, xs, mutex), ys, mutex)
    decreases |xs|
  {
    if xs == [] {
      assert xs + ys == ys;
    } else {
      assert (xs + ys)[0] == xs[0] && (xs + ys)[1..] == xs[1..] + ys;
      RunJoins(Do(w, xs[0], mutex), xs[1..], ys, mutex);
    }
  }

  lemma RunOne(w: World, a: Action, mutex: bool)
    requires w.Shaped()
    ensures Run(w, [a], mutex) == Do(w, a, mutex)
  {
    assert [a][1..] == [];
  }

  lemma RunAndOne(w: World, xs: seq<Action>, a: Action, mutex: bool)
    requires w.Shaped()
    ensures Run(w, xs + [a], mutex) == Do(Run(w, xs, mutex), a, mutex)
  {
    RunJoins(w, xs, [a], mutex);
    RunOne(Run(w, xs, mutex), a, mutex);
  }

  /** `v` is `w` after writer `i` alone has moved, to phase `p`, publishing nothing. */
  ghost predicate Moved(w: World, v: World, i: nat, p: Phase)
    requires w.Shaped() && v.Shaped() && i < |w.writers|
  {
    && v.active == w.active && v.history == w.history && v.holder == w.holder && v.requests == w.requests
    && v.lists == w.lists
    && v.writers == w.writers[i := w.writers[i].(phase := p)] && v.readers == w.readers
    && v.bufs[1 - w.writers[i].target] == w.bufs[1 - w.writers[i].target]
  }

  lemma {:induction false} Zeroing(w: World, i: nat, k: nat, mutex: bool)
    requires w.Shaped() && i < |w.writers| && k <= WORDS && w.writers[i].phase == Zero(k)
    requires forall j | 0 <= j < k :: w.bufs[w.writers[i].target][j] == 0
    ensures var v := Run(w, Turns(i, WORDS - k + 1), mutex);
            Moved(w, v, i, Fill(0)) && v.bufs[w.writers[i].target] == ZEROES
    decreases WORDS - k
  {
    var n := WORDS - k + 1;
    assert Turns(i, n)[1..] == Turns(i, n - 1);
    var v := WriterStep(w, i, mutex);
    if k < WORDS {
      Zeroing(v, i, k + 1, mutex);
    } else {
      assert Turns(i, 0) == [];
    }
  }

  lemma {:induction false} Filling(w: World, i: nat, k: nat, mutex: bool)
    requires w.Shaped() && i < |w.writers| && k <= WORDS && w.writers[i].phase == Fill(k)
    requires forall j | 0 <= j < k :: w.bufs[w.writers[i].target][j] == w.writers[i].Wanted()[j]
    ensures var v := Run(w, Turns(i, WORDS - k + 1), mutex);
            Moved(w, v, i, Store) && v.bufs[w.writers[i].target] == w.writers[i].Wanted()
    decreases WORDS - k
  {
    var n := WORDS - k + 1;
    assert Turns(i, n)[1..] == Turns(i, n - 1);
    var v := WriterStep(w, i, mutex);
    if k < WORDS {
      Filling(v, i, k + 1, mutex);
    } else {
      assert Turns(i, 0) == [];
    }
  }

  /** `v` is `w` after writer `i` has published its set, undisturbed. */
  ghost predicate Published(w: World, v: World, i: nat)
    requires w.Shaped() && v.Shaped() && i < |w.writers|
  {
    var img := w.writers[i].Wanted();
    && v.active == 1 - w.active && v.history == w.history + [img] && v.holder == None
    && v.requests == w.requests + [img] && v.lists == w.lists
    && v.bufs[v.active] == img && v.bufs[w.active] == w.bufs[w.active]
    && v.writers == w.writers[i := w.writers[i].(phase := Finished, target := 1 - w.active)]
  }

  function Begin(i: nat): seq<Action> {
    [Write(i)] + Turns(i, WORDS + 1)
  }

  function End(i: nat): seq<Action> {
    Turns(i, WORDS + 1) + ([Write(i)] + [Write(i)])
  }

  lemma Enters(w: World, i: nat)
    requires w.Shaped() && i < |w.writers| && w.writers[i].phase == Waiting && w.holder == None
    ensures var v := Run(w, [Write(i)], true);
            && v.active == w.active && v.history == w.history && v.holder == Some(i)
            && v.requests == w.requests + [w.writers[i].Wanted()] && v.lists == w.lists && v.bufs == w.bufs
            && v.writers == w.writers[i := w.writers[i].(phase := Zero(0), target := 1 - w.active)]
  {
    RunOne(w, Write(i), true);
  }

  /** Into the lock and up to a buffer of zeroes. */
  lemma Begins(w: World, i: nat)
    requires w.Shaped() && i < |w.writers| && w.writers[i].phase == Waiting && w.holder == None
    ensures var v := Run(w, Begin(i), true);
            && v.active == w.active && v.history == w.history && v.holder == Some(i)
            && v.requests == w.requests + [w.writers[i].Wanted()] && v.lists == w.lists
            && v.bufs[1 - w.active] == ZEROES && v.bufs[w.active] == w.bufs[w.active]
            && v.writers == w.writers[i := w.writers[i].(phase := Fill(0), target := 1 - w.active)]
  {
    var w1 := Run(w, [Write(i)], true);
    Enters(w, i);
    Zeroing(w1, i, 0, true);
    RunJoins(w, [Write(i)], Turns(i, WORDS + 1), true);
    SetTwice(w.writers, i, w1.writers[i], w.writers[i].(phase := Fill(0), target := 1 - w.active));
  }

  lemma SetTwice(ws: seq<Writer>, i: nat, a: Writer, b: Writer)
    requires i < |ws|
    ensures ws[i := a][i := b] == ws[i := b]
  {
  }

  lemma FillsUp(w: World, i: nat)
    requires w.Shaped() && i < |w.writers| && w.writers[i].phase == Fill(0)
    requires w.writers[i].target == 1 - w.active
    ensures var v := Run(w, Turns(i, WORDS + 1), true);
            && v.active == w.active && v.history == w.history && v.requests == w.requests && v.lists == w.lists
            && v.bufs[1 - w.active] == w.writers[i].Wanted() && v.bufs[w.active] == w.bufs[w.active]
            && v.writers == w.writers[i := w.writers[i].(phase := Store)]
  {
    Filling(w, i, 0, true);
  }

  lemma StoreAndGive(w: World, i: nat)
    requires w.Shaped() && i < |w.writers| && w.writers[i].phase == Store
    requires w.writers[i].target == 1 - w.active
    ensures var v := Run(w, [Write(i)] + [Write(i)], true);
            && v.active == 1 - w.active && v.history == w.history + [w.bufs[1 - w.active]]
            && v.holder == None && v.requests == w.requests && v.lists == w.lists && v.bufs == w.bufs
            && v.writers == w.writers[i := w.writers[i].(phase := Finished)]
  {
    RunOne(w, Write(i), true);
    RunAndOne(w, [Write(i)], Write(i), true);
  }

  /** From there to the live pointer and out of the lock. */
  lemma Ends(w: World, i: nat)
    requires w.Shaped() && i < |w.writers| && w.writers[i].phase == Fill(0)
    requires w.writers[i].target == 1 - w.active
    ensures var v := Run(w, End(i), true);
            var img := w.writers[i].Wanted();
            && v.active == 1 - w.active && v.history == w.history + [img] && v.holder == None
            && v.requests == w.requests && v.lists == w.lists
            && v.bufs[v.active] == img && v.bufs[w.active] == w.bufs[w.active]
            && v.writers == w.writers[i := w.writers[i].(phase := Finished)]
  {
    var w1 := Run(w, Turns(i, WORDS + 1), true);
    FillsUp(w, i);
    RunJoins(w, Turns(i, WORDS + 1), [Write(i)] + [Write(i)], true);
    StoreAndGive(w1, i);
    SetTwice(w.writers, i, w1.writers[i], w.writers[i].(phase := Finished));
  }

  lemma PublishRuns(w: World, i: nat)
    requires w.Shaped() && i < |w.writers| && w.writers[i].phase == Waiting && w.holder == None
    ensures Published(w, Run(w, Begin(i) + End(i), true), i)
  {
    Begins(w, i);
    RunJoins(w, Begin(i), End(i), true);
    Ends(Run(w, Begin(i), true), i);
  }

  const SOME_PORTS: Ports := [443, 80, 0, 0, 0, 0, 0, 0, 0, 0, 0, 0, 2]
  const OTHER_PORTS: Ports := [443, 0, 0, 0, 0, 0, 0, 0, 0, 0, 0, 0, 1]

  /** The writer of a link event that has fetched list `n`. */
  function Fetched(ports: Ports, n: nat, dns: int, up: int): Writer {
    Writer(ports, dns, up, Waiting, 0, None, false, Some(n))
  }

  /** A link event arrives and fetches the saved port list. */
  function Event(dns: int, up: int, i: nat): seq<Action> {
    [Publish(dns, up)] + [Write(i)]
  }

  lemma EventRuns(w: World, dns: int, up: int, mutex: bool)
    requires w.Shaped()
    ensures Run(w, Event(dns, up, |w.writers|), mutex) ==
            w.(writers := w.writers + [Fetched(w.SavedList(), |w.lists| - 1, dns, up)])
  {
    var a := Writer(NO_PORTS, dns, up, Fetch, 0, None, false, None);
    RunOne(w, Publish(dns, up), mutex);
    RunAndOne(w, [Publish(dns, up)], Write(|w.writers|), mutex);
    assert (w.writers + [a])[|w.writers| := Fetched(w.SavedList(), |w.lists| - 1, dns, up)]
           == w.writers + [Fetched(w.SavedList(), |w.lists| - 1, dns, up)];
  }

  /** A port list is saved, and the link comes up with resolver 9. */
  const LINK_UP := [SavePorts(SOME_PORTS)] + Event(9, 1, 0) + (Begin(0) + End(0))

  /** The world where that is so: writer 0 is done. */
  ghost predicate Up(w: World) {
    && w.Shaped() && |w.writers| >= 1 && w.active == 1 && w.holder == None
    && w.history == [ZEROES, SOME_PORTS + [9, 1]] && w.requests == [SOME_PORTS + [9, 1]]
    && w.bufs[1] == SOME_PORTS + [9, 1]
    && w.writers[0].phase == Finished
  }

  lemma LinkUp()
    ensures var w := Run(START, LINK_UP, true);
            Up(w) && |w.writers| == 1 && w.lists == [NO_PORTS, SOME_PORTS]
  {
    var save := [SavePorts(SOME_PORTS)];
    RunOne(START, SavePorts(SOME_PORTS), true);
    var w := Run(START, save, true);
    EventRuns(w, 9, 1, true);
    RunJoins(START, save, Event(9, 1, 0), true);
    PublishRuns(Run(START, save + Event(9, 1, 0), true), 0);
    RunJoins(START, save + Event(9, 1, 0), Begin(0) + End(0), true);
  }

  /** A change of the port list has read that the link is up. */
  const UP_READ := LINK_UP + [PortsChanged] + [Write(1)] + [Write(1)]

  lemma UpRead()
    ensures var w := Run(START, UP_READ, true);
            && Up(w) && |w.writers| == 2 && w.lists == [NO_PORTS, SOME_PORTS]
            && w.writers[1] == Writer(NO_PORTS, 0, 0, TakeDns(1, 1), 1, None, false, None)
  {
    LinkUp();
    RunAndOne(START, LINK_UP, PortsChanged, true);
    RunAndOne(START, LINK_UP + [PortsChanged], Write(1), true);
    RunAndOne(START, LINK_UP + [PortsChanged] + [Write(1)], Write(1), true);
  }

  /** It has read the resolver too, and fetched the list. */
  const LINK_READ := UP_READ + [Write(1)] + [Write(1)]

  lemma LinkRead()
    ensures var w := Run(START, LINK_READ, true);
            && Up(w) && |w.writers| == 2 && w.lists == [NO_PORTS, SOME_PORTS]
            && w.writers[1] == Writer(SOME_PORTS, 9, 1, Waiting, 1, Some(1), true, Some(1))
  {
    UpRead();
    RunAndOne(START, UP_READ, Write(1), true);
    RunAndOne(START, UP_READ + [Write(1)], Write(1), true);
  }

  /** A link change undone: the change of the port list takes what it needs while the
      link is up, the link goes down, and the old link state is published after it. */
  lemma LinkChangeUndone() returns (actions: seq<Action>)
    ensures var w := Run(START, actions, true);
            && |w.history| == 4 && Link(w.history[2]) == (0, 0) && Link(w.history[3]) == (9, 1)
            && 1 < |w.writers| && w.writers[1].origin == Some(1) && w.writers[1].clean
            && w.history[3] == w.writers[1].Wanted()
  {
    LinkRead();
    EventRuns(Run(START, LINK_READ, true), 0, 0, true);
    RunJoins(START, LINK_READ, Event(0, 0, 2), true);
    var ys := LINK_READ + Event(0, 0, 2);
    PublishRuns(Run(START, ys, true), 2);
    RunJoins(START, ys, Begin(2) + End(2), true);
    var zs := ys + (Begin(2) + End(2));
    PublishRuns(Run(START, zs, true), 1);
    RunJoins(START, zs, Begin(1) + End(1), true);
    actions := zs + (Begin(1) + End(1));
  }

  /** The link goes down, and the event has fetched the list that is about to change. */
  const OLD_LIST := LINK_UP + Event(0, 0, 1) + [SavePorts(OTHER_PORTS)]

  lemma OldList()
    ensures var w := Run(START, OLD_LIST, true);
            && Up(w) && |w.writers| == 2 && w.lists == [NO_PORTS, SOME_PORTS, OTHER_PORTS]
            && w.writers[1] == Fetched(SOME_PORTS, 1, 0, 0)
  {
    LinkUp();
    EventRuns(Run(START, LINK_UP, true), 0, 0, true);
    RunJoins(START, LINK_UP, Event(0, 0, 1), true);
    RunAndOne(START, LINK_UP + Event(0, 0, 1), SavePorts(OTHER_PORTS), true);
  }

  /** The change of the port list gets ready to publish the new one. */
  const NEW_LIST := OLD_LIST + [PortsChanged] + [Write(2)] + [Write(2)] + [Write(2)] + [Write(2)]

  lemma NewList()
    ensures var w := Run(START, NEW_LIST, true);
            && Up(w) && |w.writers| == 3 && w.lists == [NO_PORTS, SOME_PORTS, OTHER_PORTS]
            && w.writers[1] == Fetched(SOME_PORTS, 1, 0, 0)
            && w.writers[2] == Writer(OTHER_PORTS, 9, 1, Waiting, 1, Some(1), true, Some(2))
  {
    OldList();
    var xs := OLD_LIST + [PortsChanged];
    RunAndOne(START, OLD_LIST, PortsChanged, true);
    RunAndOne(START, xs, Write(2), true);
    RunAndOne(START, xs + [Write(2)], Write(2), true);
    RunAndOne(START, xs + [Write(2)] + [Write(2)], Write(2), true);
    RunAndOne(START, xs + [Write(2)] + [Write(2)] + [Write(2)], Write(2), true);
  }

  /** And the other way round, a port list undone: the event publishes the old list after
      the change has published the new one, and everybody is done. */
  lemma PortListUndone() returns (actions: seq<Action>)
    ensures var w := Run(START, actions, true);
            && |w.history| == 4 && w.SavedList() == OTHER_PORTS && PortsOf(w.history[2]) == OTHER_PORTS
            && PortsOf(w.bufs[w.active]) == SOME_PORTS != OTHER_PORTS
            && forall i | 0 <= i < |w.writers| :: w.writers[i].phase == Finished
  {
    NewList();
    PublishRuns(Run(START, NEW_LIST, true), 2);
    RunJoins(START, NEW_LIST, Begin(2) + End(2), true);
    var zs := NEW_LIST + (Begin(2) + End(2));
    PublishRuns(Run(START, zs, true), 1);
    RunJoins(START, zs, Begin(1) + End(1), true);
    actions := zs + (Begin(1) + End(1));
    assert SOME_PORTS[1] != OTHER_PORTS[1];
  }

  lemma OnlyWrites(i: nat)
    ensures forall k | 0 <= k < |Begin(i)| :: Begin(i)[k] == Write(i)
    ensures forall k | 0 <= k < |End(i)| :: End(i)[k] == Write(i)
  {
  }

  /** No event of the run asks for this link state. */
  ghost predicate NeverAsked(actions: seq<Action>, link: (int, int)) {
    forall a | a in actions && a.Publish? :: (a.dns, a.up) != link
  }

  /** Between the two reads of that change the link goes down. */
  const WENT_DOWN := UP_READ + Event(0, 0, 2) + (Begin(2) + End(2))

  lemma WentDown()
    ensures var w := Run(START, WENT_DOWN, true);
            && w.history == [ZEROES, SOME_PORTS + [9, 1], SOME_PORTS + [0, 0]]
            && w.active == 0 && w.holder == None && |w.writers| == 3 && |w.requests| == 2
            && w.lists == [NO_PORTS, SOME_PORTS]
            && w.writers[1] == Writer(NO_PORTS, 0, 0, TakeDns(1, 1), 1, None, false, None)
  {
    UpRead();
    EventRuns(Run(START, UP_READ, true), 0, 0, true);
    RunJoins(START, UP_READ, Event(0, 0, 2), true);
    PublishRuns(Run(START, UP_READ + Event(0, 0, 2), true), 2);
    RunJoins(START, UP_READ + Event(0, 0, 2), Begin(2) + End(2), true);
  }

  /** A third set is begun in the buffer it reads from, before its second read. */
  const BEGUN := WENT_DOWN + Event(9, 1, 3) + Begin(3)

  lemma Begun()
    ensures var w := Run(START, BEGUN, true);
            && w.history == [ZEROES, SOME_PORTS + [9, 1], SOME_PORTS + [0, 0]]
            && w.active == 0 && |w.writers| == 4 && |w.requests| == 3 && w.bufs[1] == ZEROES
            && w.lists == [NO_PORTS, SOME_PORTS]
            && w.writers[1] == Writer(NO_PORTS, 0, 0, TakeDns(1, 1), 1, None, false, None)
            && w.writers[3] == Writer(SOME_PORTS, 9, 1, Fill(0), 1, None, false, Some(1))
  {
    WentDown();
    EventRuns(Run(START, WENT_DOWN, true), 9, 1, true);
    RunJoins(START, WENT_DOWN, Event(9, 1, 3), true);
    var w := Run(START, WENT_DOWN + Event(9, 1, 3), true);
    Begins(w, 3);
    RunJoins(START, WENT_DOWN + Event(9, 1, 3), Begin(3), true);
  }

  const TORN_READ := BEGUN + [Write(1)] + [Write(1)]

  lemma TornRead()
    ensures var w := Run(START, TORN_READ, true);
            && w.history == [ZEROES, SOME_PORTS + [9, 1], SOME_PORTS + [0, 0]]
            && w.active == 0 && |w.writers| == 4
            && w.writers[1] == Writer(SOME_PORTS, 0, 1, Waiting, 1, Some(1), false, Some(1))
            && w.writers[3] == Writer(SOME_PORTS, 9, 1, Fill(0), 1, None, false, Some(1))
  {
    Begun();
    RunAndOne(START, BEGUN, Write(1), true);
    RunAndOne(START, BEGUN + [Write(1)], Write(1), true);
  }

  /** And torn: what it then publishes is a link that is up with no resolver, which no
      event asked for. */
  lemma LinkStateTorn() returns (actions: seq<Action>)
    ensures var w := Run(START, actions, true);
            && |w.history| == 5 && Link(w.history[4]) == (0, 1) && NeverAsked(actions, (0, 1))
            && 1 < |w.writers| && w.writers[1].origin == Some(1) && !w.writers[1].clean
            && w.history[4] == w.writers[1].Wanted()
  {
    TornRead();
    Ends(Run(START, TORN_READ, true), 3);
    RunJoins(START, TORN_READ, End(3), true);
    PublishRuns(Run(START, TORN_READ + End(3), true), 1);
    RunJoins(START, TORN_READ + End(3), Begin(1) + End(1), true);
    actions := TORN_READ + End(3) + (Begin(1) + End(1));
    NobodyAsked();
  }

  lemma NobodyAsked()
    ensures NeverAsked(TORN_READ + End(3) + (Begin(1) + End(1)), (0, 1))
  {
    forall i: nat
      ensures NeverAsked(Begin(i), (0, 1)) && NeverAsked(End(i), (0, 1))
    {
      OnlyWrites(i);
    }
    assert NeverAsked(LINK_UP, (0, 1));
    assert NeverAsked(UP_READ, (0, 1));
    assert NeverAsked(WENT_DOWN, (0, 1));
    assert NeverAsked(BEGUN, (0, 1));
    assert NeverAsked(TORN_READ, (0, 1));
  }

  /** Two writers that have picked the same buffer. */
  function BothBegin(): seq<Action> {
    [SavePorts(SOME_PORTS)] + Event(0, 1, 0) + Event(0, 1, 1) + [Write(0)] + [Write(1)]
  }

  lemma BothBegun()
    ensures var a := Fetched(SOME_PORTS, 1, 0, 1).(phase := Zero(0), target := 1);
            var w := Run(START, BothBegin(), false);
            w.writers == [a, a] && w.active == 0
  {
    var xs := [SavePorts(SOME_PORTS)];
    var ys := xs + Event(0, 1, 0);
    var zs := ys + Event(0, 1, 1);
    RunOne(START, SavePorts(SOME_PORTS), false);
    EventRuns(Run(START, xs, false), 0, 1, false);
    RunJoins(START, xs, Event(0, 1, 0), false);
    EventRuns(Run(START, ys, false), 0, 1, false);
    RunJoins(START, ys, Event(0, 1, 1), false);
    BothPick(Run(START, zs, false));
    RunJoins(START, zs, [Write(0)], false);
    RunJoins(START, zs + [Write(0)], [Write(1)], false);
  }

  lemma BothPick(w: World)
    requires w.Shaped() && w.active == 0 && |w.writers| == 2
    requires w.writers[0].phase == w.writers[1].phase == Waiting
    ensures var v := Run(Run(w, [Write(0)], false), [Write(1)], false);
            && v.active == 0 && v.writers == [w.writers[0].(phase := Zero(0), target := 1),
                                              w.writers[1].(phase := Zero(0), target := 1)]
  {
    RunOne(w, Write(0), false);
    RunOne(Run(w, [Write(0)], false), Write(1), false);
  }

  /** The first of them fills that buffer and makes it live. */
  const FIRST_DONE := BothBegin() + Turns(0, WORDS + 1) + Turns(0, WORDS + 1) + [Write(0)]

  lemma FirstDone()
    ensures var w := Run(START, FIRST_DONE, false);
            && |w.writers| == 2 && w.active == 1 && w.bufs[1][0] == 443
            && w.writers[1] == Fetched(SOME_PORTS, 1, 0, 1).(phase := Zero(0), target := 1)
  {
    BothBegun();
    var w, turns := Run(START, BothBegin(), false), Turns(0, WORDS + 1);
    FillsAndStores(w);
    RunJoins(START, BothBegin(), turns, false);
    RunJoins(START, BothBegin() + turns, turns, false);
    RunJoins(START, BothBegin() + turns + turns, [Write(0)], false);
  }

  lemma FillsAndStores(w: World)
    requires w.Shaped() && |w.writers| > 0 && w.writers[0].phase == Zero(0) && w.writers[0].target == 1
    ensures var turns := Turns(0, WORDS + 1);
            var v := Run(Run(Run(w, turns, false), turns, false), [Write(0)], false);
            && v.active == 1 && v.bufs[1] == w.writers[0].Wanted()
            && v.writers == w.writers[0 := w.writers[0].(phase := Give)]
  {
    var turns := Turns(0, WORDS + 1);
    var w1 := Run(w, turns, false);
    Zeroing(w, 0, 0, false);
    var w2 := Run(w1, turns, false);
    Filling(w1, 0, 0, false);
    RunOne(w2, Write(0), false);
  }

  /** Without the mutex, two writers can pick the same buffer, and the slower one
      writes into it after the other has made it live. */
  lemma WithoutMutexLiveIsWritten() returns (actions: seq<Action>, i: nat)
    ensures i < |Run(START, actions, false).writers|
    ensures var w := Run(START, actions, false);
            WriterStep(w, i, false).bufs[w.active] != w.bufs[w.active]
  {
    FirstDone();
    actions, i := FIRST_DONE, 1;
    var w := Run(START, actions, false);
    assert WriterStep(w, 1, false).bufs[1][0] == 0;
  }

  // ---- one publisher's code ----

  const NPORTS: nat := 12

  /** The port part of the configuration: always twelve slots, and a count that is
      only believed up to twelve. */
  datatype PortConfig = PortConfig(slots: seq<int>, count: nat) {
    predicate Ok() {
      |slots| == NPORTS
    }

    function Words(): Ports
      requires Ok()
    {
      slots + [if count <= NPORTS then count else NPORTS]
    }
  }

  class RuleSets {
    const first: array<int>
    const second: array<int>
    var active: Side

    ghost predicate Valid()
      reads this
    {
      first.Length == WORDS && second.Length == WORDS && first != second
    }

    function Buffer(b: Side): array<int>
      reads this
    {
      if b == 0 then first else second
    }

    ghost function Live(): Image
      requires Valid()
      reads this, first, second
    {
      Buffer(active)[..]
    }

    constructor ()
      ensures Valid() && fresh(first) && fresh(second) && active == 0 && Live() == ZEROES
    {
      first := new int[WORDS](_ => 0);
      second := new int[WORDS](_ => 0);
      active := 0;
    }

    /** Fills the buffer that is not live, then makes it live; the set that was live
        is left as it was. */
    method PublishRules(cfg: PortConfig, up: int, dns: int)
      requires Valid() && cfg.Ok()
      modifies this`active, Buffer(1 - active)
      ensures Valid() && active == 1 - old(active)
      ensures Live() == cfg.Words() + [dns, up]
      ensures Buffer(old(active))[..] == old(Live())
    {
      var next := Buffer(1 - active);
      for k := 0 to WORDS
        invariant active == old(active)
      {
        next[k] := 0;
      }
      for k := 0 to NPORTS
        invariant active == old(active) && next[..k] == cfg.slots[..k]
      {
        next[k] := cfg.slots[k];
      }
      next[NPORTS] := if cfg.count <= NPORTS then cfg.count else NPORTS;
      next[DNS], next[UP] := dns, up;
      assert next[..] == cfg.Words() + [dns, up];
      active := 1 - active;
    }

    /** Republishes what is live about the link with a new port list. */
    method PortsChanged(cfg: PortConfig)
      requires Valid() && cfg.Ok()
      modifies this`active, Buffer(1 - active)
      ensures Valid() && Live() == cfg.Words() + [old(Live())[DNS], old(Live())[UP]]
    {
      var r := Buffer(active);
      PublishRules(cfg, r[UP], r[DNS]);
    }
  }
}

/**
 How fragments from any number of tasks become log lines. Every character carries
 the number of the fragment it came from, so the results can say what is kept, in
 what order, and what is never mixed.
 */
module LogAssembly {
  import opened Bytes
  import opened LogText

  const STAGING_MAX: nat := 256
  const PENDING_MAX: nat := 256

  /** One call of the capture hook: who logged, and the formatted text. */
  datatype Fragment = Fragment(task: nat, text: string)

  /** What the hook works on: cut to its scratch buffer, colours removed. */
  function Staged(f: Fragment): string {
    StripFrom(Cut(f.text, STAGING_MAX), 0)
  }

  /** The fragment begins a prefixed line of its own. */
  predicate Opens(f: Fragment) {
    MatchPrefix(Staged(f)).Some?
  }

  datatype Mark = Mark(c: char, frag: nat)

  function Chars(ms: seq<Mark>): (s: string)
    ensures |s| == |ms| && forall k | 0 <= k < |ms| :: s[k] == ms[k].c
  {
    seq(|ms|, k requires 0 <= k < |ms| => ms[k].c)
  }

  /** The line being assembled, whose task it is, and every chunk closed so far. */
  datatype Assembly = Assembly(pending: seq<Mark>, task: nat, committed: seq<seq<Mark>>) {
    function Commit(): Assembly {
      Assembly([], task, committed + [pending])
    }

    function Put(m: Mark): Assembly {
      var a := if |pending| + 1 >= PENDING_MAX then Commit() else this;
      a.(pending := a.pending + [m])
    }
  }

  const EMPTY := Assembly([], 0, [])

  /** The index of the last newline, or the text's length. */
  function LastNewline(s: string, n: nat): (r: nat)
    requires n <= |s|
    ensures r == |s| || (r < n && s[r] == '\n')
    ensures r == |s| ==> forall k | 0 <= k < n :: s[k] != '\n'
    ensures r < n ==> forall k | r < k < n :: s[k] != '\n'
  {
    if n == 0 then |s| else if s[n - 1] == '\n' then n - 1 else LastNewline(s, n - 1)
  }

  function Fold(c: char): char {
    if c == '\n' || c == '\r' then ' ' else c
  }

  function Walk(a: Assembly, s: string, i: nat, last: nat, id: nat): Assembly
    requires i <= |s|
    decreases |s| - i
  {
    if i == |s| then a
    else if i == last then Walk(a.Commit(), s, i + 1, last, id)
    else Walk(a.Put(Mark(Fold(s[i]), id)), s, i + 1, last, id)
  }

  /** Closes an interrupted line, and takes the task over if none is pending. */
  function Begin(a: Assembly, f: Fragment): Assembly {
    var a1 := if |a.pending| > 0 && (f.task != a.task || Opens(f)) then a.Commit() else a;
    if a1.pending == [] then a1.(task := f.task) else a1
  }

  function Capture(a: Assembly, f: Fragment, id: nat): Assembly {
    var s := Staged(f);
    Walk(Begin(a, f), s, 0, LastNewline(s, |s|), id)
  }

  /** The assembly after a whole history of fragments, numbered from 0. */
  function Assembled(frags: seq<Fragment>): Assembly {
    if frags == [] then EMPTY
    else Capture(Assembled(frags[..|frags| - 1]), frags[|frags| - 1], |frags| - 1)
  }

  // ---- conservation ----

  function Flat(chunks: seq<seq<Mark>>): seq<Mark> {
    if chunks == [] then [] else Flat(chunks[..|chunks| - 1]) + chunks[|chunks| - 1]
  }

  function Everything(a: Assembly): seq<Mark> {
    Flat(a.committed) + a.pending
  }

  /** A staged text from `i` on, without its last newline, other breaks as spaces. */
  function Clean(s: string, i: nat, last: nat, id: nat): seq<Mark>
    requires i <= |s|
    decreases |s| - i
  {
    if i == |s| then []
    else if i == last then Clean(s, i + 1, last, id)
    else [Mark(Fold(s[i]), id)] + Clean(s, i + 1, last, id)
  }

  function CleanAll(frags: seq<Fragment>): seq<Mark> {
    if frags == [] then []
    else
      var s := Staged(frags[|frags| - 1]);
      CleanAll(frags[..|frags| - 1]) + Clean(s, 0, LastNewline(s, |s|), |frags| - 1)
  }

  lemma CommitConserves(a: Assembly)
    ensures Everything(a.Commit()) == Everything(a)
  {
    assert a.Commit().committed[..|a.committed|] == a.committed;
  }

  lemma PutConserves(a: Assembly, m: Mark)
    ensures Everything(a.Put(m)) == Everything(a) + [m]
  {
    CommitConserves(a);
  }

  lemma {:induction false} WalkConserves(a: Assembly, s: string, i: nat, last: nat, id: nat)
    requires i <= |s|
    ensures Everything(Walk(a, s, i, last, id)) == Everything(a) + Clean(s, i, last, id)
    decreases |s| - i
  {
    if i < |s| {
      if i == last {
        CommitConserves(a);
        WalkConserves(a.Commit(), s, i + 1, last, id);
      } else {
        var m := Mark(Fold(s[i]), id);
        PutConserves(a, m);
        WalkConserves(a.Put(m), s, i + 1, last, id);
      }
    }
  }

  /** Nothing is lost, repeated or reordered: the chunks closed so far and the text
      pending are exactly the cleaned fragments, in order. */
  lemma {:induction false} AssemblyConserves(frags: seq<Fragment>)
    ensures Everything(Assembled(frags)) == CleanAll(frags)
  {
    if frags != [] {
      var init, f := frags[..|frags| - 1], frags[|frags| - 1];
      var a, s := Assembled(init), Staged(f);
      AssemblyConserves(init);
      CommitConserves(a);
      WalkConserves(Begin(a, f), s, 0, LastNewline(s, |s|), |frags| - 1);
    }
  }

  // ---- nothing is mixed ----

  /** One task throughout, and a fragment that opens a line only at its start. */
  ghost predicate Pure(ms: seq<Mark>, frags: seq<Fragment>) {
    && (forall k | 0 <= k < |ms| :: ms[k].frag < |frags|)
    && (forall j, k | 0 <= j < k < |ms| ::
          && frags[ms[j].frag].task == frags[ms[k].frag].task
          && (Opens(frags[ms[k].frag]) ==> ms[j].frag == ms[k].frag))
  }

  ghost predicate AllPure(a: Assembly, frags: seq<Fragment>) {
    && |a.pending| < PENDING_MAX
    && (forall k | 0 <= k < |a.committed| ::
          |a.committed[k]| < PENDING_MAX && Pure(a.committed[k], frags))
    && Pure(a.pending, frags)
    && (forall k | 0 <= k < |a.pending| :: frags[a.pending[k].frag].task == a.task)
  }

  /** While fragment `id` is being walked, what is pending is its task's, and its
      own alone if it opens a line. */
  ghost predicate WalkPure(a: Assembly, frags: seq<Fragment>, id: nat)
    requires id < |frags|
  {
    && AllPure(a, frags)
    && (a.pending != [] ==> a.task == frags[id].task)
    && a.task == frags[id].task
    && (Opens(frags[id]) ==> forall k | 0 <= k < |a.pending| :: a.pending[k].frag == id)
  }

  lemma CommitPure(a: Assembly, frags: seq<Fragment>)
    requires AllPure(a, frags)
    ensures AllPure(a.Commit(), frags)
  {
  }

  lemma PutPure(a: Assembly, frags: seq<Fragment>, id: nat, c: char)
    requires id < |frags| && WalkPure(a, frags, id)
    ensures WalkPure(a.Put(Mark(c, id)), frags, id)
  {
    CommitPure(a, frags);
  }

  lemma {:induction false} WalkKeepsPure(a: Assembly, s: string, i: nat, last: nat, frags: seq<Fragment>, id: nat)
    requires i <= |s| && id < |frags| && WalkPure(a, frags, id)
    ensures AllPure(Walk(a, s, i, last, id), frags)
    decreases |s| - i
  {
    if i < |s| {
      if i == last {
        CommitPure(a, frags);
        WalkKeepsPure(a.Commit(), s, i + 1, last, frags, id);
      } else {
        PutPure(a, frags, id, Fold(s[i]));
        WalkKeepsPure(a.Put(Mark(Fold(s[i]), id)), s, i + 1, last, frags, id);
      }
    }
  }

  lemma PureExtends(a: Assembly, frags: seq<Fragment>, f: Fragment)
    requires AllPure(a, frags)
    ensures AllPure(a, frags + [f])
  {
    var more := frags + [f];
    assert forall k | 0 <= k < |frags| :: more[k] == frags[k];
  }

  /** No chunk mixes tasks or has a fragment that opens a line in its middle. */
  lemma {:induction false} AssemblyIsPure(frags: seq<Fragment>)
    ensures AllPure(Assembled(frags), frags)
  {
    if frags != [] {
      var init, f := frags[..|frags| - 1], frags[|frags| - 1];
      var a, s := Assembled(init), Staged(f);
      AssemblyIsPure(init);
      PureExtends(a, init, f);
      assert init + [f] == frags;
      CommitPure(a, frags);
      WalkKeepsPure(Begin(a, f), s, 0, LastNewline(s, |s|), frags, |frags| - 1);
    }
  }

  // ---- what is stored ----

  function Trim(s: string): (r: string)
    ensures r <= s && (r != "" ==> r[|r| - 1] != ' ')
  {
    if s != "" && s[|s| - 1] == ' ' then Trim(s[..|s| - 1]) else s
  }

  /** The log proper: every chunk that is not blank, split into its parts. */
  function Stored(chunks: seq<seq<Mark>>): seq<Line> {
    if chunks == [] then []
    else
      var text := Trim(Chars(chunks[|chunks| - 1]));
      Stored(chunks[..|chunks| - 1]) + if text == "" then [] else [ParseLine(text)]
  }

  /** No stored line is longer than its fields. */
  lemma {:induction false} StoredBounded(chunks: seq<seq<Mark>>)
    ensures forall line | line in Stored(chunks) :: |line.tag| < TAG_MAX && |line.msg| < MSG_MAX
  {
    if chunks != [] {
      StoredBounded(chunks[..|chunks| - 1]);
    }
  }

  // ---- the ring's window onto it ----

  const LINES: nat := 128

  /** The oldest line number still held once `total` lines have been stored. */
  function Oldest(total: nat): nat {
    if total > LINES then total - LINES + 1 else 1
  }

  predicate Held(total: nat, n: nat) {
    Oldest(total) <= n <= total
  }

  /** What one racing reader sees. `log` is every line ever stored; `newest` is how
      many there were when the reader asked for the range; `totalAt(n)` how many
      when it fetched line `n`. The writer may store any number in between. */
  datatype View = View(log: seq<Line>, newest: nat, totalAt: nat -> nat) {
    ghost predicate Ok() {
      newest <= |log| && forall n :: newest <= totalAt(n) <= |log|
    }

    function Fetch(n: nat): (line: Option<Line>)
      requires Ok()
      ensures line.Some? ==> 1 <= n <= |log| && line.value == log[n - 1]
    {
      if Held(totalAt(n), n) then Some(log[n - 1]) else None
    }
  }
}

/** The capture hook's buffers: a line accumulator in front of an overwriting ring. */
module LogBuf {
  import opened Bytes
  import opened LogText
  import opened LogAssembly

  lemma SlotsDiffer(m: nat, n: nat)
    requires m < n < m + LINES
    ensures m % LINES != n % LINES
  {
  }

  class LogBuffer {
    const staging: array<char>
    const pending: array<char>
    var pendingLen: nat
    var pendingTask: nat
    const lines: array<Line>
    var total: nat
    /** Every fragment captured so far, in order. */
    ghost var frags: seq<Fragment>
    ghost var asm: Assembly

    ghost predicate Valid()
      reads this, pending, lines
    {
      && staging.Length == STAGING_MAX && pending.Length == PENDING_MAX && lines.Length == LINES
      && staging != pending
      && Accumulates() && Holds()
    }

    ghost predicate Accumulates()
      reads this, pending
    {
      && pendingLen < PENDING_MAX <= pending.Length
      && pendingLen == |asm.pending| && pending[..pendingLen] == Chars(asm.pending)
      && pendingTask == asm.task
    }

    ghost predicate Holds()
      reads this, lines
    {
      Shows(Stored(asm.committed))
    }

    /** The ring is the last `LINES` entries of the unbounded log. */
    ghost predicate Shows(log: seq<Line>)
      reads this, lines
    {
      && lines.Length == LINES && total == |log|
      && forall n | 0 <= n < total && total - LINES <= n :: lines[n % LINES] == log[n]
    }

    constructor ()
      ensures Valid() && frags == [] && asm == Assembled(frags)
    {
      staging := new char[STAGING_MAX](_ => '\0');
      pending := new char[PENDING_MAX](_ => '\0');
      lines := new Line[LINES](_ => Line('?', 0, "", ""));
      pendingLen, pendingTask, total := 0, 0, 0;
      frags, asm := [], EMPTY;
    }

    method StoreLine(line: Line, ghost log: seq<Line>)
      requires Shows(log)
      modifies this`total, lines
      ensures Shows(log + [line])
    {
      lines[total % LINES] := line;
      forall n | 0 <= n < total && total + 1 - LINES <= n
        ensures n % LINES != total % LINES
      {
        SlotsDiffer(n, total);
      }
      total := total + 1;
    }

    method CommitPending()
      requires Valid()
      modifies this`pendingLen, this`total, this`asm, lines
      ensures Valid() && asm == old(asm).Commit()
    {
      var text := Trim(pending[..pendingLen]);
      ghost var chunks := asm.committed;
      assert (chunks + [asm.pending])[..|chunks|] == chunks;
      if text != "" {
        StoreLine(ParseLine(text), Stored(chunks));
      }
      asm := asm.Commit();
      pendingLen := 0;
    }

    method PendingPutc(c: char, ghost id: nat)
      requires Valid()
      modifies this`pendingLen, this`total, this`asm, lines, pending
      ensures Valid() && asm == old(asm).Put(Mark(c, id))
    {
      if pendingLen + 1 >= PENDING_MAX {
        CommitPending();
      }
      Append(c, id);
    }

    method Append(c: char, ghost id: nat)
      requires Valid() && pendingLen + 1 < PENDING_MAX
      modifies this`pendingLen, this`asm, pending
      ensures Valid() && asm == old(asm).(pending := old(asm.pending) + [Mark(c, id)])
    {
      ghost var was := pending[..pendingLen];
      pending[pendingLen] := c;
      pendingLen := pendingLen + 1;
      asm := asm.(pending := asm.pending + [Mark(c, id)]);
      assert pending[..pendingLen] == was + [c];
    }

    /** One call of the hook, with `text` as the format produced it. */
    method CaptureFragment(task: nat, text: string)
      requires Valid() && asm == Assembled(frags)
      modifies this, staging, pending, lines
      ensures Valid() && asm == Assembled(frags) && frags == old(frags) + [Fragment(task, text)]
    {
      ghost var f := Fragment(task, text);
      ghost var id := |frags|;
      var s := Stage(text);
      OpenFor(task, s, f);
      WalkFragment(s, id);
      frags := frags + [f];
      assert frags[..id] == old(frags);
    }

    /** What is pending is closed if it is another task's or a new line opens. */
    method OpenFor(task: nat, s: string, ghost f: Fragment)
      requires Valid() && f.task == task && s == StripFrom(Cut(f.text, STAGING_MAX), 0)
      modifies this`pendingLen, this`pendingTask, this`total, this`asm, lines
      ensures Valid() && asm == Begin(old(asm), f)
    {
      var opens := MatchPrefix(s).Some?;
      if pendingLen > 0 && (task != pendingTask || opens) {
        CommitPending();
      }
      if pendingLen == 0 {
        pendingTask := task;
        asm := asm.(task := task);
      }
    }

    /** Everything up to the last newline closes the line, what follows opens the next. */
    method WalkFragment(s: string, ghost id: nat)
      requires Valid()
      modifies this`pendingLen, this`total, this`asm, lines, pending
      ensures Valid() && asm == Walk(old(asm), s, 0, LastNewline(s, |s|), id)
    {
      var last := LastNewline(s, |s|);
      for i := 0 to |s|
        invariant Valid()
        invariant Walk(asm, s, i, last, id) == Walk(old(asm), s, 0, last, id)
      {
        if i == last {
          CommitPending();
          continue;
        }
        PendingPutc(Fold(s[i]), id);
      }
    }

    /** Formats into the scratch buffer and strips colours there. */
    method Stage(text: string) returns (s: string)
      requires Valid()
      modifies staging
      ensures Valid() && s == StripFrom(Cut(text, STAGING_MAX), 0)
    {
      var cut := Cut(text, STAGING_MAX);
      for i := 0 to |cut|
        invariant staging[..i] == cut[..i]
      {
        staging[i] := cut[i];
      }
      staging[|cut|] := '\0';
      assert staging[..|cut|] == cut;
      var w := StripAnsi(staging, |cut|);
      s := staging[..w];
    }

    // ---- readers ----

    method GetRange() returns (oldest: nat, newest: nat)
      requires Valid()
      ensures newest == |Stored(asm.committed)| && oldest == Oldest(newest)
    {
      newest := total;
      oldest := if total > LINES then total - LINES + 1 else 1;
    }

    /** Succeeds exactly for the lines still held, and gives that very line. */
    method GetLine(n: nat) returns (line: Option<Line>)
      requires Valid()
      ensures line.Some? <==> Oldest(|Stored(asm.committed)|) <= n <= |Stored(asm.committed)|
      ensures line.Some? ==> line.value == Stored(asm.committed)[n - 1]
    {
      if n == 0 {
        return None;
      }
      if n <= total && total - n < LINES {
        return Some(lines[(n - 1) % LINES]);
      }
      return None;
    }
  }
}

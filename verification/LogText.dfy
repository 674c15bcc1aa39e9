/** What one captured log line is made of: colour stripping, the line prefix, and
    the split into level, time, tag and message. */
module LogText {
  import opened Bytes
  import opened Decimal

  const TAG_MAX: nat := 32
  const MSG_MAX: nat := 144
  const ESC: char := '\U{001B}'

  // ---- colours ----

  /** The index just past a control sequence whose parameters start at `i`, or the
      text's length if it never ends. */
  function SkipSequence(s: string, i: nat): (j: nat)
    requires i <= |s|
    ensures i <= j <= |s|
    decreases |s| - i
  {
    if i == |s| then i
    else if '@' <= s[i] <= '~' then i + 1
    else SkipSequence(s, i + 1)
  }

  /** The text from `i` on, without its control sequences. */
  function StripFrom(s: string, i: nat): (r: string)
    requires i <= |s|
    ensures |r| <= |s| - i
    decreases |s| - i
  {
    if i == |s| then ""
    else if s[i] == ESC && i + 1 < |s| && s[i + 1] == '[' then
      StripFrom(s, SkipSequence(s, i + 2))
    else [s[i]] + StripFrom(s, i + 1)
  }

  method SkipControl(buf: array<char>, len: nat, start: nat, ghost s: string) returns (r: nat)
    requires start <= len <= buf.Length && |s| == len
    requires forall k | start <= k < len :: buf[k] == s[k]
    ensures start <= r <= len && r == SkipSequence(s, start)
  {
    r := start;
    while r < len && (buf[r] < '@' || buf[r] > '~')
      invariant start <= r <= len && SkipSequence(s, r) == SkipSequence(s, start)
    {
      r := r + 1;
    }
    if r < len {
      r := r + 1;
    }
  }

  lemma KeepOne(s: string, r: nat, kept: string)
    requires r < |s| && !(s[r] == ESC && r + 1 < |s| && s[r + 1] == '[')
    ensures kept + StripFrom(s, r) == kept + [s[r]] + StripFrom(s, r + 1)
  {
    assert kept + ([s[r]] + StripFrom(s, r + 1)) == kept + [s[r]] + StripFrom(s, r + 1);
  }

  /** The character read goes next to those kept; what is still to read stays. */
  method Keep(buf: array<char>, len: nat, w: nat, r: nat, ghost s: string, ghost kept: string)
    requires w <= r < len < buf.Length && |s| == len
    requires kept == buf[..w] && forall k | r <= k < len :: buf[k] == s[k]
    modifies buf
    ensures buf[..w + 1] == kept + [s[r]] && forall k | r < k < len :: buf[k] == s[k]
  {
    buf[w] := buf[r];
    assert buf[..w] == kept;
  }

  /** Removes control sequences in place; returns the new length. */
  method StripAnsi(buf: array<char>, len: nat) returns (w: nat)
    requires len < buf.Length
    modifies buf
    ensures w <= len && buf[..w] == StripFrom(old(buf[..len]), 0)
    ensures buf[w] == '\0'
  {
    ghost var s := buf[..len];
    ghost var kept := "";
    var r := 0;
    w := 0;
    while r < len
      invariant w <= r <= len && kept == buf[..w] && forall k | r <= k < len :: buf[k] == s[k]
      invariant kept + StripFrom(s, r) == StripFrom(s, 0)
    {
      if buf[r] == ESC && r + 1 < len && buf[r + 1] == '[' {
        r := SkipControl(buf, len, r + 2, s);
      } else {
        KeepOne(s, r, kept);
        Keep(buf, len, w, r, s, kept);
        kept, w, r := kept + [s[r]], w + 1, r + 1;
      }
    }
    buf[w] := '\0';
  }

  lemma {:induction false} PlainIsKept(s: string, i: nat)
    requires i <= |s| && forall k | 0 <= k < |s| :: s[k] != ESC
    ensures StripFrom(s, i) == s[i..]
    decreases |s| - i
  {
    if i < |s| {
      PlainIsKept(s, i + 1);
    }
  }

  // ---- the prefix ----

  datatype Prefix = Prefix(level: char, tsMs: u32, rest: nat)

  predicate IsLevel(c: char) {
    c in "EWIDV"
  }

  /** "L (timestamp) ", and where the line goes on after it. */
  function MatchPrefix(s: string): (r: Option<Prefix>)
    ensures r.Some? ==> r.value.rest <= |s| && IsLevel(r.value.level)
  {
    if |s| < 3 || !IsLevel(s[0]) || s[1] != ' ' || s[2] != '(' then None
    else
      var n := Strtoul(s, 3);
      if n.end + 1 < |s| && s[n.end] == ')' && s[n.end + 1] == ' '
      then Some(Prefix(s[0], n.value, n.end + 2)) else None
  }

  // ---- the line ----

  datatype Line = Line(level: char, tsMs: u32, tag: string, msg: string)

  function IndexOf(s: string, c: char, i: nat): (r: nat)
    requires i <= |s|
    ensures i <= r <= |s|
    ensures r < |s| ==> s[r] == c
    ensures forall k | i <= k < r :: s[k] != c
    decreases |s| - i
  {
    if i == |s| || s[i] == c then i else IndexOf(s, c, i + 1)
  }

  function Cut(s: string, max: nat): (r: string)
    requires max > 0
    ensures |r| < max && r <= s
  {
    if |s| < max then s else s[..max - 1]
  }

  /** After the prefix: a tag that fits its field, up to the colon, and the message. */
  function SplitFields(s: string, p: Prefix): (r: Line)
    requires p.rest <= |s|
    ensures |r.tag| < TAG_MAX && |r.msg| < MSG_MAX
  {
    var sep := IndexOf(s, ':', p.rest);
    if sep < |s| && sep - p.rest < TAG_MAX then
      var body := if sep + 1 < |s| && s[sep + 1] == ' ' then sep + 2 else sep + 1;
      Line(p.level, p.tsMs, s[p.rest..sep], Cut(s[body..], MSG_MAX))
    else Line(p.level, p.tsMs, "", Cut(s[p.rest..], MSG_MAX))
  }

  /** A line without the usual prefix is kept whole, at level '?'. */
  function ParseLine(s: string): (r: Line)
    ensures |r.tag| < TAG_MAX && |r.msg| < MSG_MAX
    ensures IsLevel(r.level) || r.level == '?'
  {
    var p := MatchPrefix(s);
    if p.None? then Line('?', 0, "", Cut(s, MSG_MAX)) else SplitFields(s, p.value)
  }

  /** The tag stands at `a` and the message at `b`, with at most a separator between
      them, and the message runs to the end or fills its field. */
  ghost predicate SplitAt(s: string, l: Line, a: nat, b: nat) {
    && a + |l.tag| <= b <= a + |l.tag| + 2 && b + |l.msg| <= |s|
    && s[a..a + |l.tag|] == l.tag && s[b..b + |l.msg|] == l.msg
    && (b + |l.msg| == |s| || |l.msg| == MSG_MAX - 1)
    && (l.tag != "" ==> a + |l.tag| < |s| && s[a + |l.tag|] == ':' && ':' !in l.tag)
  }

  lemma CutAt(s: string, b: nat)
    requires b <= |s|
    ensures var m := Cut(s[b..], MSG_MAX);
            b + |m| <= |s| && s[b..b + |m|] == m && (b + |m| == |s| || |m| == MSG_MAX - 1)
  {
  }

  lemma SplitFrom(s: string, l: Line, a: nat, sep: nat, b: nat)
    requires a <= sep < |s| && s[sep] == ':' && l.tag == s[a..sep] && forall k | a <= k < sep :: s[k] != ':'
    requires sep < b <= sep + 2 && b <= |s| && l.msg == Cut(s[b..], MSG_MAX)
    ensures SplitAt(s, l, a, b)
  {
    CutAt(s, b);
  }

  lemma FieldsKeepText(s: string, p: Prefix) returns (b: nat)
    requires p.rest <= |s|
    ensures SplitAt(s, SplitFields(s, p), p.rest, b)
  {
    var a := p.rest;
    var sep := IndexOf(s, ':', a);
    if sep < |s| && sep - a < TAG_MAX {
      b := if sep + 1 < |s| && s[sep + 1] == ' ' then sep + 2 else sep + 1;
      SplitFrom(s, SplitFields(s, p), a, sep, b);
    } else {
      b := a;
      CutAt(s, b);
    }
  }

  /** Nothing of a line is lost but its prefix, the separator, and what the message
      field has no room for: tag and message are pieces of it, in order. */
  lemma ParseKeepsText(s: string) returns (a: nat, b: nat)
    ensures a == if MatchPrefix(s).Some? then MatchPrefix(s).value.rest else 0
    ensures SplitAt(s, ParseLine(s), a, b)
  {
    var p := MatchPrefix(s);
    a := if p.Some? then p.value.rest else 0;
    if p.Some? {
      b := FieldsKeepText(s, p.value);
    } else {
      b := a;
    }
  }

  function Printed(l: Line): string {
    [l.level] + " (" + Dec(l.tsMs) + ") " + l.tag + ": " + l.msg
  }

  lemma IndexIs(s: string, c: char, i: nat, r: nat)
    requires i <= r < |s| && s[r] == c && forall k | i <= k < r :: s[k] != c
    ensures IndexOf(s, c, i) == r
  {
  }

  lemma PrefixOfPrinted(l: Line)
    requires IsLevel(l.level)
    ensures MatchPrefix(Printed(l)) == Some(Prefix(l.level, l.tsMs, 5 + |Dec(l.tsMs)|))
  {
    var s, d := Printed(l), Dec(l.tsMs);
    assert s[3..3 + |d|] == d;
    assert s[3 + |d|] == ')' && s[4 + |d|] == ' ';
    ReadsPrinted(s, 3, l.tsMs);
  }

  lemma TagAndMessage(a: string, tag: string, msg: string)
    requires ':' !in tag
    ensures var s, sep := a + tag + ": " + msg, |a| + |tag|;
            && IndexOf(s, ':', |a|) == sep && sep + 1 < |s| && s[sep + 1] == ' '
            && s[|a|..sep] == tag && s[sep + 2..] == msg
  {
    var s, sep := a + tag + ": " + msg, |a| + |tag|;
    forall k | |a| <= k < sep
      ensures s[k] != ':'
    {
      assert s[k] == tag[k - |a|];
    }
    IndexIs(s, ':', |a|, sep);
  }

  /** A line as the logging macros print it is split into what it was made of. */
  lemma PrintedRoundTrip(l: Line)
    requires IsLevel(l.level) && |l.tag| < TAG_MAX && |l.msg| < MSG_MAX && ':' !in l.tag
    ensures ParseLine(Printed(l)) == l
  {
    PrefixOfPrinted(l);
    TagAndMessage([l.level] + " (" + Dec(l.tsMs) + ") ", l.tag, l.msg);
  }
}

/** The WAN allowlist as text: reading it, printing it, and that the two undo each
    other. */
module WanPorts {
  import opened Bytes
  import opened Decimal

  const MAX_PORTS: nat := 12
  const PORTS_STR_MAX: nat := 121

  datatype Proto = Tcp | Udp

  datatype Rule = Rule(port: u16, proto: Proto)

  datatype Error = NotANumber | OutOfRange | BadSuffix | TooMany | ListedTwice | NoRules

  datatype Parsed = Ok(rules: seq<Rule>) | Err(error: Error)

  /** What the port part of a configuration's validation asks of a rule list. */
  ghost predicate Valid(rules: seq<Rule>) {
    && |rules| <= MAX_PORTS
    && (forall i | 0 <= i < |rules| :: rules[i].port != 0)
    && (forall i, j | 0 <= j < i < |rules| :: rules[i] != rules[j])
  }

  // ---- parsing ----

  predicate IsBlank(c: char) {
    c == ' ' || c == '\t'
  }

  function SkipBlanks(s: string, i: nat): (j: nat)
    requires i <= |s|
    ensures i <= j <= |s|
    decreases |s| - i
  {
    if i < |s| && IsBlank(s[i]) then SkipBlanks(s, i + 1) else i
  }

  /** `strncmp` against a three-letter word. */
  predicate HasWord(s: string, i: nat, w: string)
    requires |w| == 3
  {
    i + 3 <= |s| && s[i] == w[0] && s[i + 1] == w[1] && s[i + 2] == w[2]
  }

  lemma DigitsAreRead(s: string, p: nat)
    requires p < |s| && IsDigit(s[p])
    ensures Strtoul(s, p).end == SkipDigits(s, p) > p
    ensures var v := Value(s, p, SkipDigits(s, p));
            Strtoul(s, p).value == if v > ULONG_MAX then ULONG_MAX else v
  {
    assert SkipSpace(s, p) == p;
  }

  /** The parser's loop, at the start of a rule. */
  function ParseFrom(s: string, i: nat, rules: seq<Rule>): Parsed
    requires i <= |s|
    decreases |s| - i, 2
  {
    var p := SkipBlanks(s, i);
    if p == |s| || !IsDigit(s[p]) then Err(NotANumber)
    else
      var n := Strtoul(s, p);
      DigitsAreRead(s, p);
      if n.value == 0 || n.value > 65535 then Err(OutOfRange)
      else ParseSuffix(s, n.value, n.end, rules)
  }

  /** The loop after a port: its optional protocol. */
  function ParseSuffix(s: string, port: u16, end: nat, rules: seq<Rule>): Parsed
    requires end <= |s|
    decreases |s| - end, 1
  {
    if end < |s| && s[end] == '/' then
      if HasWord(s, end + 1, "tcp") then AddRule(s, Rule(port, Tcp), end + 4, rules)
      else if HasWord(s, end + 1, "udp") then AddRule(s, Rule(port, Udp), end + 4, rules)
      else Err(BadSuffix)
    else AddRule(s, Rule(port, Tcp), end, rules)
  }

  /** The loop with a rule in hand: it must fit, be new, and be followed by a comma
      or the end. */
  function AddRule(s: string, rule: Rule, next: nat, rules: seq<Rule>): Parsed
    requires next <= |s|
    decreases |s| - next, 0
  {
    if |rules| >= MAX_PORTS then Err(TooMany)
    else if rule in rules then Err(ListedTwice)
    else
      var q := SkipBlanks(s, next);
      if q == |s| then Ok(rules + [rule])
      else if s[q] != ',' then Err(NotANumber)
      else ParseFrom(s, q + 1, rules + [rule])
  }

  function Parse(s: string): Parsed {
    if SkipBlanks(s, 0) == |s| then Ok([]) else ParseFrom(s, SkipBlanks(s, 0), [])
  }

  // ---- printing ----

  function Suffix(p: Proto): string {
    if p == Udp then "/udp" else ""
  }

  function FormatRule(rules: seq<Rule>, i: nat): string
    requires i < |rules|
  {
    (if i > 0 then "," else "") + Dec(rules[i].port) + Suffix(rules[i].proto)
  }

  function FormatFirst(rules: seq<Rule>, n: nat): string
    requires n <= |rules|
  {
    if n == 0 then "" else FormatFirst(rules, n - 1) + FormatRule(rules, n - 1)
  }

  function Format(rules: seq<Rule>): string {
    FormatFirst(rules, |rules|)
  }

  lemma {:induction false} FormatFirstLength(rules: seq<Rule>, n: nat)
    requires n <= |rules|
    ensures |FormatFirst(rules, n)| <= 10 * n && (n > 0 ==> |FormatFirst(rules, n)| < 10 * n)
  {
    if n > 0 {
      FormatFirstLength(rules, n - 1);
      DecOfU16(rules[n - 1].port);
    }
  }

  /** The longest list prints in the buffer reserved for it. */
  lemma FormatFits(rules: seq<Rule>)
    requires |rules| <= MAX_PORTS
    ensures |Format(rules)| < PORTS_STR_MAX
  {
    FormatFirstLength(rules, |rules|);
  }

  // ---- the accepted texts ----

  datatype Ending = Bare | SlashTcp | SlashUdp

  /** One rule as somebody may write it, by where its parts lie: blanks up to `a`,
      digits up to `b`, an ending up to `c`, and blanks up to `d`. */
  datatype Piece = Piece(a: nat, b: nat, ending: Ending, c: nat, d: nat)

  ghost predicate Blank(s: string, i: int, j: int) {
    0 <= i <= j <= |s| && forall k | i <= k < j :: IsBlank(s[k])
  }

  ghost predicate Digits(s: string, i: int, j: int) {
    0 <= i < j <= |s| && forall k | i <= k < j :: IsDigit(s[k])
  }

  predicate EndsWith(s: string, b: nat, ending: Ending, c: nat) {
    match ending
    case Bare => b == c
    case SlashTcp => c == b + 4 <= |s| && s[b] == '/' && HasWord(s, b + 1, "tcp")
    case SlashUdp => c == b + 4 <= |s| && s[b] == '/' && HasWord(s, b + 1, "udp")
  }

  /** The piece stands at offset `i`, with a comma or the end after it, and means
      the rule. */
  ghost predicate Stands(s: string, i: nat, p: Piece, rule: Rule) {
    && Blank(s, i, p.a) && Digits(s, p.a, p.b)
    && EndsWith(s, p.b, p.ending, p.c) && Blank(s, p.c, p.d)
    && (p.d < |s| ==> s[p.d] == ',')
    && 0 < rule.port == Value(s, p.a, p.b)
    && rule.proto == if p.ending == SlashUdp then Udp else Tcp
  }

  /** From offset `i` on, the text writes the rules, with commas between them. */
  ghost predicate Writes(s: string, i: nat, rules: seq<Rule>)
    decreases |rules|, 1
  {
    rules != [] && exists p :: StartsWith(s, i, p, rules)
  }

  /** As above, `p` being where the first of them stands. */
  ghost predicate StartsWith(s: string, i: nat, p: Piece, rules: seq<Rule>)
    requires rules != []
    decreases |rules|, 0
  {
    && Stands(s, i, p, rules[0])
    && if |rules| == 1 then p.d == |s| else p.d < |s| && Writes(s, p.d + 1, rules[1..])
  }

  lemma {:induction false} BlanksAreSkipped(s: string, i: nat, j: nat)
    requires Blank(s, i, j) && (j < |s| ==> !IsBlank(s[j]))
    ensures SkipBlanks(s, i) == j
    decreases j - i
  {
    if i < j {
      BlanksAreSkipped(s, i + 1, j);
    }
  }

  lemma {:induction false} BlanksSkipped(s: string, i: nat)
    requires i <= |s|
    ensures Blank(s, i, SkipBlanks(s, i))
    ensures SkipBlanks(s, i) < |s| ==> !IsBlank(s[SkipBlanks(s, i)])
    decreases |s| - i
  {
    if i < |s| && IsBlank(s[i]) {
      BlanksSkipped(s, i + 1);
    }
  }

  lemma NumberIsRead(s: string, a: nat, b: nat)
    requires Digits(s, a, b) && (b < |s| ==> !IsDigit(s[b])) && Value(s, a, b) <= 65535
    ensures Strtoul(s, a).value == Value(s, a, b) && Strtoul(s, a).end == b
  {
    SkipDigitsIs(s, a, b);
    DigitsAreRead(s, a);
  }

  lemma TakesPort(s: string, i: nat, p: Piece, rule: Rule, rules: seq<Rule>)
    requires i <= |s| && Stands(s, i, p, rule)
    ensures ParseFrom(s, i, rules) == ParseSuffix(s, rule.port, p.b, rules)
  {
    BlanksAreSkipped(s, i, p.a);
    NumberIsRead(s, p.a, p.b);
  }

  lemma TakesSuffix(s: string, i: nat, p: Piece, rule: Rule, rules: seq<Rule>)
    requires Stands(s, i, p, rule)
    ensures ParseSuffix(s, rule.port, p.b, rules) == AddRule(s, rule, p.c, rules)
  {
  }

  lemma TakesText(s: string, i: nat, p: Piece, rule: Rule, rules: seq<Rule>)
    requires i <= |s| && Stands(s, i, p, rule)
    ensures ParseFrom(s, i, rules) == AddRule(s, rule, p.c, rules)
  {
    TakesPort(s, i, p, rule, rules);
    TakesSuffix(s, i, p, rule, rules);
  }

  lemma TakesRule(s: string, rule: Rule, c: nat, d: nat, rules: seq<Rule>)
    requires Blank(s, c, d) && (d < |s| ==> s[d] == ',')
    requires |rules| < MAX_PORTS && rule !in rules
    ensures AddRule(s, rule, c, rules) ==
              if d == |s| then Ok(rules + [rule]) else ParseFrom(s, d + 1, rules + [rule])
  {
    BlanksAreSkipped(s, c, d);
  }

  /** A well-written piece is taken as what it means, and the parser goes on after
      its comma. */
  lemma TakesPiece(s: string, i: nat, p: Piece, rule: Rule, rules: seq<Rule>)
    requires i <= |s| && Stands(s, i, p, rule) && |rules| < MAX_PORTS && rule !in rules
    ensures ParseFrom(s, i, rules) ==
              if p.d == |s| then Ok(rules + [rule]) else ParseFrom(s, p.d + 1, rules + [rule])
  {
    TakesText(s, i, p, rule, rules);
    TakesEnd(s, i, p, rule, rules);
  }

  lemma TakesEnd(s: string, i: nat, p: Piece, rule: Rule, rules: seq<Rule>)
    requires i <= |s| && Stands(s, i, p, rule) && |rules| < MAX_PORTS && rule !in rules
    requires ParseFrom(s, i, rules) == AddRule(s, rule, p.c, rules)
    ensures ParseFrom(s, i, rules) ==
              if p.d == |s| then Ok(rules + [rule]) else ParseFrom(s, p.d + 1, rules + [rule])
  {
    TakesRule(s, rule, p.c, p.d, rules);
  }

  /** The rules can be added one after the other. */
  ghost predicate Admits(done: seq<Rule>, rest: seq<Rule>)
    decreases |rest|
  {
    rest != [] ==>
      && |done| < MAX_PORTS && rest[0].port != 0 && rest[0] !in done
      && Admits(done + [rest[0]], rest[1..])
  }

  lemma AdmitsMore(done: seq<Rule>, rule: Rule, more: seq<Rule>)
    requires |done| < MAX_PORTS && rule.port != 0 && rule !in done && Admits(done + [rule], more)
    ensures Admits(done, [rule] + more)
    ensures done + ([rule] + more) == (done + [rule]) + more
    ensures more == [] ==> done + ([rule] + more) == done + [rule]
  {
    assert ([rule] + more)[1..] == more;
  }

  lemma ValidExtends(rules: seq<Rule>, rule: Rule)
    requires Valid(rules)
    ensures Valid(rules + [rule]) <==> |rules| < MAX_PORTS && rule !in rules && rule.port != 0
  {
    var all := rules + [rule];
    assert all[|rules|] == rule && forall k | 0 <= k < |rules| :: all[k] == rules[k];
  }

  lemma ValidPrefix(rules: seq<Rule>, more: seq<Rule>)
    requires Valid(rules + more)
    ensures Valid(rules)
  {
    var all := rules + more;
    assert forall k | 0 <= k < |rules| :: all[k] == rules[k];
  }

  lemma {:induction false} AdmitsIsValid(done: seq<Rule>, rest: seq<Rule>)
    requires Valid(done)
    ensures Admits(done, rest) <==> Valid(done + rest)
    decreases |rest|
  {
    if rest == [] {
      assert done + rest == done;
    } else {
      var more := done + [rest[0]];
      assert more + rest[1..] == done + rest;
      ValidExtends(done, rest[0]);
      if Valid(more) {
        AdmitsIsValid(more, rest[1..]);
      } else if Valid(more + rest[1..]) {
        ValidPrefix(more, rest[1..]);
      }
    }
  }

  /** Every well-written list is accepted, with its meaning. */
  lemma {:induction false} WrittenIsRead(s: string, i: nat, rest: seq<Rule>, rules: seq<Rule>)
    requires i <= |s| && Writes(s, i, rest) && Admits(rules, rest)
    ensures ParseFrom(s, i, rules) == Ok(rules + rest)
    decreases |rest|
  {
    var p :| StartsWith(s, i, p, rest);
    TakesPiece(s, i, p, rest[0], rules);
    assert rules + rest == (rules + [rest[0]]) + rest[1..];
    if |rest| > 1 {
      WrittenIsRead(s, p.d + 1, rest[1..], rules + [rest[0]]);
    }
  }

  // ---- and nothing else is ----

  lemma TookPort(s: string, i: nat, rules: seq<Rule>) returns (a: nat, b: nat, port: u16)
    requires i <= |s| && ParseFrom(s, i, rules).Ok?
    ensures Blank(s, i, a) && Digits(s, a, b) && i < b && 0 < port == Value(s, a, b)
    ensures ParseFrom(s, i, rules) == ParseSuffix(s, port, b, rules)
  {
    a := SkipBlanks(s, i);
    BlanksSkipped(s, i);
    DigitsAreRead(s, a);
    DigitsSkipped(s, a);
    b := SkipDigits(s, a);
    port := Strtoul(s, a).value;
  }

  lemma TookSuffix(s: string, port: u16, b: nat, rules: seq<Rule>) returns (ending: Ending, c: nat, rule: Rule)
    requires b <= |s| && ParseSuffix(s, port, b, rules).Ok?
    ensures b <= c <= |s| && EndsWith(s, b, ending, c)
    ensures rule == Rule(port, if ending == SlashUdp then Udp else Tcp)
    ensures ParseSuffix(s, port, b, rules) == AddRule(s, rule, c, rules)
  {
    ending :=
      if b == |s| || s[b] != '/' then Bare else if HasWord(s, b + 1, "tcp") then SlashTcp else SlashUdp;
    c := if ending == Bare then b else b + 4;
    rule := Rule(port, if ending == SlashUdp then Udp else Tcp);
  }

  lemma TookRule(s: string, rule: Rule, c: nat, rules: seq<Rule>) returns (d: nat)
    requires c <= |s| && AddRule(s, rule, c, rules).Ok?
    ensures Blank(s, c, d) && (d < |s| ==> s[d] == ',')
    ensures |rules| < MAX_PORTS && rule !in rules
  {
    d := SkipBlanks(s, c);
    BlanksSkipped(s, c);
  }

  lemma WritesMore(s: string, i: nat, p: Piece, rule: Rule, rest: seq<Rule>)
    requires Stands(s, i, p, rule)
    requires if rest == [] then p.d == |s| else p.d < |s| && Writes(s, p.d + 1, rest)
    ensures Writes(s, i, [rule] + rest)
  {
    var rules := [rule] + rest;
    assert rules[1..] == rest;
    assert StartsWith(s, i, p, rules);
  }

  /** What the parser took was a well-written rule. */
  lemma TookFirst(s: string, i: nat, rules: seq<Rule>) returns (p: Piece, rule: Rule)
    requires i <= |s| && ParseFrom(s, i, rules).Ok?
    ensures Stands(s, i, p, rule) && i < p.d <= |s|
    ensures |rules| < MAX_PORTS && rule.port != 0 && rule !in rules
    ensures ParseFrom(s, i, rules) ==
              if p.d == |s| then Ok(rules + [rule]) else ParseFrom(s, p.d + 1, rules + [rule])
  {
    var q, r := TookText(s, i, rules);
    var d := TookRule(s, r, q.c, rules);
    p, rule := q.(d := d), r;
    TakesPiece(s, i, p, rule, rules);
  }

  /** All of it but the blanks after it. */
  lemma TookText(s: string, i: nat, rules: seq<Rule>) returns (p: Piece, rule: Rule)
    requires i <= |s| && ParseFrom(s, i, rules).Ok?
    ensures Blank(s, i, p.a) && Digits(s, p.a, p.b) && EndsWith(s, p.b, p.ending, p.c)
    ensures 0 < rule.port == Value(s, p.a, p.b) && rule.proto == if p.ending == SlashUdp then Udp else Tcp
    ensures i < p.c <= |s| && AddRule(s, rule, p.c, rules).Ok?
  {
    var a, b, port := TookPort(s, i, rules);
    var ending, c, r := TookSuffix(s, port, b, rules);
    p, rule := Piece(a, b, ending, c, c), r;
  }

  lemma {:induction false} ReadIsWritten(s: string, i: nat, rules: seq<Rule>) returns (rest: seq<Rule>)
    requires i <= |s| && ParseFrom(s, i, rules).Ok?
    ensures Writes(s, i, rest) && Admits(rules, rest) && ParseFrom(s, i, rules) == Ok(rules + rest)
    decreases |s| - i
  {
    var p, rule := TookFirst(s, i, rules);
    var more := [];
    if p.d < |s| {
      more := ReadIsWritten(s, p.d + 1, rules + [rule]);
    }
    rest := [rule] + more;
    WritesMore(s, i, p, rule, more);
    AdmitsMore(rules, rule, more);
  }

  /** The parser accepts exactly the blank texts, as no rules, and the well-written
      lists of valid rules, as what they mean. */
  lemma ParseAccepts(s: string, rules: seq<Rule>)
    ensures Parse(s) == Ok(rules) <==>
              if SkipBlanks(s, 0) == |s| then rules == []
              else Valid(rules) && Writes(s, SkipBlanks(s, 0), rules)
  {
    var i := SkipBlanks(s, 0);
    if i < |s| {
      assert [] + rules == rules;
      AdmitsIsValid([], rules);
      if ParseFrom(s, i, []) == Ok(rules) {
        var rest := ReadIsWritten(s, i, []);
        assert [] + rest == rest;
      }
      if Valid(rules) && Writes(s, i, rules) {
        WrittenIsRead(s, i, rules, []);
      }
    }
  }

  /** A successful parse that is not empty passes the port checks of validation. */
  lemma ParsedIsValid(s: string)
    ensures Parse(s).Ok? ==> Valid(Parse(s).rules)
  {
    if Parse(s).Ok? {
      ParseAccepts(s, Parse(s).rules);
    }
  }

  // ---- round trip ----

  /** Where rule `k` starts in a printed list. */
  function StartOf(rules: seq<Rule>, k: nat): nat
    requires k < |rules|
  {
    |FormatFirst(rules, k)| + if k > 0 then 1 else 0
  }

  function PlainPiece(rules: seq<Rule>, k: nat): Piece
    requires k < |rules|
  {
    var a := StartOf(rules, k);
    var b := a + |Dec(rules[k].port)|;
    var c := b + |Suffix(rules[k].proto)|;
    Piece(a, b, if rules[k].proto == Udp then SlashUdp else Bare, c, c)
  }

  lemma {:induction false} FormatExtends(rules: seq<Rule>, k: nat, n: nat)
    requires k <= n <= |rules|
    ensures FormatFirst(rules, k) <= FormatFirst(rules, n)
    decreases n
  {
    if k < n {
      FormatExtends(rules, k, n - 1);
    }
  }

  /** Rule `k` stands in the printed list. */
  lemma PrintedRule(rules: seq<Rule>, k: nat)
    requires k < |rules|
    ensures var s, p := Format(rules), PlainPiece(rules, k);
            p.d <= |s| && s[p.a..p.b] == Dec(rules[k].port) && s[p.b..p.c] == Suffix(rules[k].proto)
  {
    FormatExtends(rules, k + 1, |rules|);
    PieceOf(Format(rules), FormatFirst(rules, k), if k > 0 then "," else "",
            Dec(rules[k].port), Suffix(rules[k].proto));
  }

  lemma PieceOf(s: string, done: string, comma: string, number: string, suffix: string)
    requires done + (comma + number + suffix) <= s
    ensures var a := |done + comma|;
            var b := a + |number|;
            var c := b + |suffix|;
            c <= |s| && s[a..b] == number && s[b..c] == suffix
  {
    var t := done + (comma + number + suffix);
    assert t == done + comma + number + suffix;
    assert s[..|t|] == t;
  }

  /** A comma comes after it, or the end. */
  lemma PrintedNext(rules: seq<Rule>, k: nat)
    requires k < |rules|
    ensures var s, p := Format(rules), PlainPiece(rules, k);
            if k + 1 < |rules| then p.d < |s| && s[p.d] == ',' && p.d + 1 == StartOf(rules, k + 1)
            else p.d == |s|
  {
    var s, p := Format(rules), PlainPiece(rules, k);
    if k + 1 < |rules| {
      FormatExtends(rules, k + 2, |rules|);
      assert s[p.d] == FormatFirst(rules, k + 2)[p.d] == FormatRule(rules, k + 1)[0];
    }
  }

  lemma SpelledNumber(s: string, a: nat, b: nat, n: nat)
    requires a <= b <= |s| && s[a..b] == Dec(n)
    ensures Value(s, a, b) == n
  {
    var t := Dec(n);
    ValueOfDec(n);
    assert t[0..|t|] == t;
    ValueMoves(s, a, t, 0, b - a);
  }

  lemma SliceIsDigits(s: string, a: nat, b: nat, n: nat)
    requires a <= b <= |s| && s[a..b] == Dec(n)
    ensures Digits(s, a, b) && Value(s, a, b) == n
  {
    var t := s[a..b];
    assert forall j | a <= j < b :: s[j] == t[j - a];
    SpelledNumber(s, a, b, n);
  }

  lemma SliceIsEnding(s: string, b: nat, c: nat, proto: Proto)
    requires b <= c <= |s| && s[b..c] == Suffix(proto)
    ensures EndsWith(s, b, if proto == Udp then SlashUdp else Bare, c)
  {
    var t := s[b..c];
    if proto == Udp {
      assert s[b] == t[0] && s[b + 1] == t[1] && s[b + 2] == t[2] && s[b + 3] == t[3];
    }
  }

  /** Rule `k` stands where the printer puts it, and what follows comes after. */
  ghost predicate PrintedIn(s: string, rules: seq<Rule>, k: nat)
    requires k < |rules|
  {
    var p := PlainPiece(rules, k);
    && Stands(s, StartOf(rules, k), p, rules[k])
    && (if k + 1 < |rules| then p.d < |s| && p.d + 1 == StartOf(rules, k + 1) else p.d == |s|)
  }

  lemma PrintedStands(rules: seq<Rule>, k: nat)
    requires k < |rules| && rules[k].port != 0
    ensures PrintedIn(Format(rules), rules, k)
  {
    var s, p := Format(rules), PlainPiece(rules, k);
    PrintedRule(rules, k);
    PrintedNext(rules, k);
    SliceIsDigits(s, p.a, p.b, rules[k].port);
    SliceIsEnding(s, p.b, p.c, rules[k].proto);
  }

  lemma PrintedMore(s: string, rules: seq<Rule>, k: nat)
    requires k < |rules| && PrintedIn(s, rules, k)
    requires k + 1 < |rules| ==> Writes(s, StartOf(rules, k + 1), rules[k + 1..])
    ensures Writes(s, StartOf(rules, k), rules[k..])
  {
    var rest := rules[k + 1..];
    assert [rules[k]] + rest == rules[k..];
    WritesMore(s, StartOf(rules, k), PlainPiece(rules, k), rules[k], rest);
  }

  lemma {:induction false} PrintedWrites(s: string, rules: seq<Rule>, k: nat)
    requires k < |rules| && forall j | k <= j < |rules| :: PrintedIn(s, rules, j)
    ensures Writes(s, StartOf(rules, k), rules[k..])
    decreases |rules| - k
  {
    if k + 1 < |rules| {
      PrintedWrites(s, rules, k + 1);
    }
    PrintedMore(s, rules, k);
  }

  /** Every valid rule list prints to a text that reads back as that very list. */
  lemma FormatRoundTrip(rules: seq<Rule>)
    requires Valid(rules)
    ensures Parse(Format(rules)) == Ok(rules)
  {
    var s := Format(rules);
    if rules == [] {
      assert SkipBlanks(s, 0) == |s| == 0;
    } else {
      forall k | 0 <= k < |rules|
        ensures PrintedIn(s, rules, k)
      {
        PrintedStands(rules, k);
      }
      PrintedWrites(s, rules, 0);
      assert PrintedIn(s, rules, 0);
      BlanksAreSkipped(s, 0, 0);
      assert rules[0..] == rules;
      ParseAccepts(s, rules);
    }
  }

  /** What was read prints to a text that reads the same: printing a parsed list
      again changes nothing. */
  lemma ReformatIsFixed(s: string)
    requires Parse(s).Ok?
    ensures var t := Format(Parse(s).rules);
            Parse(t) == Parse(s) && Format(Parse(t).rules) == t && |t| < PORTS_STR_MAX
  {
    ParsedIsValid(s);
    FormatRoundTrip(Parse(s).rules);
    FormatFits(Parse(s).rules);
  }

  // ---- the code ----

  method SkipBlanksAt(s: string, i: nat) returns (j: nat)
    requires i <= |s|
    ensures i <= j <= |s| && j == SkipBlanks(s, i)
  {
    j := i;
    while j < |s| && IsBlank(s[j])
      invariant i <= j <= |s| && SkipBlanks(s, j) == SkipBlanks(s, i)
    {
      j := j + 1;
    }
  }

  /** A port and its optional protocol, from the start of a rule. */
  method ReadRule(s: string, i: nat, ghost rules: seq<Rule>) returns (error: Option<Error>, rule: Rule, next: nat)
    requires i <= |s|
    ensures error.Some? ==> ParseFrom(s, i, rules) == Err(error.value)
    ensures error.None? ==> i < next <= |s| && ParseFrom(s, i, rules) == AddRule(s, rule, next, rules)
  {
    rule, next := Rule(0, Tcp), i;
    var p := SkipBlanksAt(s, i);
    if p == |s| || !IsDigit(s[p]) {
      error := Some(NotANumber);
      return;
    }
    var n := Strtoul(s, p);
    DigitsAreRead(s, p);
    if n.value == 0 || n.value > 65535 {
      error := Some(OutOfRange);
      return;
    }
    error, rule, next := ReadSuffix(s, n.value, n.end, rules);
  }

  method ReadSuffix(s: string, port: u16, end: nat, ghost rules: seq<Rule>)
      returns (error: Option<Error>, rule: Rule, next: nat)
    requires end <= |s|
    ensures error.Some? ==> ParseSuffix(s, port, end, rules) == Err(error.value)
    ensures error.None? ==> end <= next <= |s| && ParseSuffix(s, port, end, rules) == AddRule(s, rule, next, rules)
  {
    error, rule, next := None, Rule(port, Tcp), end;
    if end < |s| && s[end] == '/' {
      next := end + 1;
      if HasWord(s, next, "tcp") {
        next := next + 3;
      } else if HasWord(s, next, "udp") {
        rule, next := Rule(port, Udp), next + 3;
      } else {
        error := Some(BadSuffix);
      }
    }
  }

  method IsListed(out: array<Rule>, n: nat, rule: Rule) returns (found: bool)
    requires n <= out.Length
    ensures found <==> rule in out[..n]
  {
    for i := 0 to n
      invariant rule !in out[..i]
    {
      if out[i] == rule {
        return true;
      }
    }
    return false;
  }

  /** Puts a rule after those already read, and finds where the next one starts. */
  method TakeRule(s: string, out: array<Rule>, n: nat, rule: Rule, next: nat)
      returns (error: Option<Error>, more: bool, at: nat)
    requires out.Length == MAX_PORTS && n <= MAX_PORTS && next <= |s|
    modifies out
    ensures error.Some? ==> AddRule(s, rule, next, old(out[..n])) == Err(error.value)
    ensures error.None? ==>
              && n < MAX_PORTS && out[..n + 1] == old(out[..n]) + [rule] && next <= at <= |s|
              && AddRule(s, rule, next, old(out[..n])) ==
                   if more then ParseFrom(s, at, out[..n + 1]) else Ok(out[..n + 1])
    ensures error.None? && more ==> next < at
  {
    error, more, at := None, false, next;
    if n >= MAX_PORTS {
      error := Some(TooMany);
      return;
    }
    var listed := IsListed(out, n, rule);
    if listed {
      error := Some(ListedTwice);
      return;
    }
    out[n] := rule;
    assert out[..n + 1] == old(out[..n]) + [rule];
    at := SkipBlanksAt(s, next);
    if at == |s| {
      return;
    }
    if s[at] != ',' {
      error := Some(NotANumber);
      return;
    }
    more, at := true, at + 1;
  }

  /** Reads a comma-separated list into `out`. */
  method ParsePorts(csv: string, out: array<Rule>) returns (error: Option<Error>, n: nat)
    requires out.Length == MAX_PORTS
    modifies out
    ensures n <= MAX_PORTS
    ensures Parse(csv) == if error.Some? then Err(error.value) else Ok(out[..n])
  {
    error, n := None, 0;
    var p := SkipBlanksAt(csv, 0);
    if p == |csv| {
      return;
    }
    var more := true;
    assert out[..0] == [];
    while more
      invariant p <= |csv| && n <= MAX_PORTS
      invariant error.Some? ==> !more && Parse(csv) == Err(error.value)
      invariant error.None? ==> Parse(csv) == if more then ParseFrom(csv, p, out[..n]) else Ok(out[..n])
      decreases more, |csv| - p
    {
      var e, rule, next := ReadRule(csv, p, out[..n]);
      if e.Some? {
        error, more := e, false;
        return;
      }
      e, more, p := TakeRule(csv, out, n, rule, next);
      if e.Some? {
        error, more := e, false;
        return;
      }
      n := n + 1;
    }
  }

  function Least(a: nat, b: nat): nat {
    if a < b then a else b
  }

  /** What is in a text buffer of `out.Length` once `text` has been printed to it in
      full or as far as it goes. */
  ghost predicate Shows(out: array<char>, text: string)
    reads out
  {
    out.Length > 0 ==>
      var m := Least(|text|, out.Length - 1);
      out[..m] == text[..m] && out[m] == '\0'
  }

  /** `snprintf` at `len`: nothing is written once the buffer is used up. */
  method PrintAt(out: array<char>, len: nat, ghost before: string, text: string)
    requires Shows(out, before) && len == |before|
    modifies out
    ensures Shows(out, before + text)
  {
    if len < out.Length {
      var room := out.Length - len - 1;
      var n := Least(|text|, room);
      for i := 0 to n
        invariant out[..len + i] == before + text[..i]
      {
        out[len + i] := text[i];
        assert out[..len + i + 1] == out[..len + i] + [text[i]];
        assert text[..i + 1] == text[..i] + [text[i]];
      }
      out[len + n] := '\0';
      assert (before + text)[..len + n] == before + text[..n];
    } else if out.Length > 0 {
      assert (before + text)[..out.Length - 1] == before[..out.Length - 1];
    }
  }

  /** Prints the list; whatever the buffer's size, it ends up holding the whole text
      or the beginning of it, terminated. */
  method FormatPorts(rules: seq<Rule>, out: array<char>) returns (len: nat)
    modifies out
    ensures Shows(out, Format(rules))
    ensures len == if out.Length > 0 then Least(|Format(rules)|, out.Length - 1) else |Format(rules)|
  {
    if out.Length > 0 {
      out[0] := '\0';
    }
    len := 0;
    for i := 0 to |rules|
      invariant len == |FormatFirst(rules, i)| && Shows(out, FormatFirst(rules, i))
    {
      var text := (if i > 0 then "," else "") + Dec(rules[i].port) + (if rules[i].proto == Udp then "/udp" else "");
      PrintAt(out, len, FormatFirst(rules, i), text);
      len := len + |text|;
    }
    if out.Length > 0 && len >= out.Length {
      len := out.Length - 1;
    }
  }

  /** The port part of validating an enabled configuration. */
  method ValidatePorts(rules: seq<Rule>) returns (error: Option<Error>)
    ensures error.None? <==> rules != [] && Valid(rules)
  {
    if rules == [] {
      return Some(NoRules);
    }
    if |rules| > MAX_PORTS {
      return Some(TooMany);
    }
    for i := 0 to |rules|
      invariant forall k | 0 <= k < i :: rules[k].port != 0
      invariant forall k, j | 0 <= j < k < i :: rules[k] != rules[j]
    {
      if rules[i].port == 0 {
        return Some(OutOfRange);
      }
      for j := 0 to i
        invariant forall k | 0 <= k < j :: rules[i] != rules[k]
      {
        if rules[i].port == rules[j].port && rules[i].proto == rules[j].proto {
          return Some(ListedTwice);
        }
      }
    }
    return None;
  }
}

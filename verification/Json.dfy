/** The body of a JSON string, section 7 of RFC 8259: the writer the web server
    uses, an independent reader, and a response buffer of fixed size. */
module Json {
  import opened Bytes

  const HEX := "0123456789abcdef"

  function EscapeChar(c: char): (s: string)
    ensures 1 <= |s| <= 6
  {
    if c == '"' then "\\\""
    else if c == '\\' then "\\\\"
    else if c == '\n' then "\\n"
    else if c == '\r' then "\\r"
    else if c == '\t' then "\\t"
    else if c < ' ' then "\\u00" + [HEX[c as nat / 16], HEX[c as nat % 16]]
    else [c]
  }

  function Escape(s: string): (r: string)
    ensures |r| <= 6 * |s|
  {
    if s == "" then "" else EscapeChar(s[0]) + Escape(s[1..])
  }

  // ---- the reader ----

  function HexValue(c: char): Option<nat> {
    if '0' <= c <= '9' then Some((c - '0') as nat)
    else if 'a' <= c <= 'f' then Some(10 + (c - 'a') as nat)
    else if 'A' <= c <= 'F' then Some(10 + (c - 'A') as nat)
    else None
  }

  function HexDigits(s: string): (v: Option<nat>) {
    if s == "" then Some(0)
    else
      var hi, d := HexDigits(s[..|s| - 1]), HexValue(s[|s| - 1]);
      if hi.Some? && d.Some? then Some(16 * hi.value + d.value) else None
  }

  datatype Token = Token(c: char, rest: string)

  /** What a two-character escape stands for. */
  function ShortEscape(c: char): Option<char> {
    match c
    case '"' => Some('"')
    case '\\' => Some('\\')
    case '/' => Some('/')
    case 'b' => Some('\U{0008}')
    case 'f' => Some('\U{000C}')
    case 'n' => Some('\n')
    case 'r' => Some('\r')
    case 't' => Some('\t')
    case _ => None
  }

  /** The first character a string body stands for. Raw control characters and
      quotes are not allowed, nor half of a surrogate pair. */
  function Next(s: string): (t: Option<Token>)
    ensures t.Some? ==> |t.value.rest| < |s|
  {
    if s == "" then None
    else if s[0] < ' ' || s[0] == '"' then None
    else if s[0] != '\\' then Some(Token(s[0], s[1..]))
    else if |s| < 2 then None
    else if s[1] == 'u' then
      if |s| < 6 then None
      else
        var v := HexDigits(s[2..6]);
        if v.Some? && v.value < 0xD800 then Some(Token(v.value as char, s[6..])) else None
    else
      var c := ShortEscape(s[1]);
      if c.Some? then Some(Token(c.value, s[2..])) else None
  }

  function Unescape(s: string): Option<string>
    decreases |s|
  {
    if s == "" then Some("")
    else
      var t := Next(s);
      if t.None? then None
      else
        var rest := Unescape(t.value.rest);
        if rest.None? then None else Some([t.value.c] + rest.value)
  }

  lemma OneMoreDigit(s: string, d: char)
    requires HexDigits(s).Some? && HexValue(d).Some?
    ensures HexDigits(s + [d]) == Some(16 * HexDigits(s).value + HexValue(d).value)
  {
    assert (s + [d])[..|s|] == s;
  }

  lemma DigitsOfByte(n: nat)
    requires n < 16
    ensures HexValue(HEX[n]) == Some(n)
  {
  }

  lemma HexPair(c: char)
    requires c < ' '
    ensures HexDigits("00" + [HEX[c as nat / 16], HEX[c as nat % 16]]) == Some(c as nat)
  {
    var hi, lo := c as nat / 16, c as nat % 16;
    DigitsOfByte(0);
    DigitsOfByte(hi);
    DigitsOfByte(lo);
    OneMoreDigit("", '0');
    OneMoreDigit("0", '0');
    OneMoreDigit("00", HEX[hi]);
    OneMoreDigit("00" + [HEX[hi]], HEX[lo]);
    assert "" + ['0'] == "0" && "0" + ['0'] == "00";
    assert "00" + [HEX[hi], HEX[lo]] == "00" + [HEX[hi]] + [HEX[lo]];
  }

  lemma NextOfEscaped(c: char, rest: string)
    ensures Next(EscapeChar(c) + rest) == Some(Token(c, rest))
  {
    var e := EscapeChar(c);
    var s := e + rest;
    assert s[|e|..] == rest;
    if |e| == 6 {
      HexPair(c);
      assert s[2..6] == "00" + [HEX[c as nat / 16], HEX[c as nat % 16]];
    }
  }

  /** Whatever text is put in, a parser that follows the standard reads back
      exactly that text. */
  lemma {:induction false} EscapeRoundTrip(s: string)
    ensures Unescape(Escape(s)) == Some(s)
  {
    if s != "" {
      NextOfEscaped(s[0], Escape(s[1..]));
      EscapeRoundTrip(s[1..]);
      assert [s[0]] + s[1..] == s;
    }
  }

  // ---- a response of fixed size ----

  /** What a buffer of `size` bytes holds after appending: None once anything,
      terminator included, did not fit. */
  function Appended(body: Option<string>, text: string, size: nat): Option<string> {
    if body.Some? && |body.value| + |text| < size then Some(body.value + text) else None
  }

  /** The escaping append gives up when its worst case would not fit. */
  function EscapedOnto(body: string, src: string, size: nat): Option<string>
    decreases |src|
  {
    if src == "" then Some(body)
    else if |body| + 7 > size then None
    else EscapedOnto(body + EscapeChar(src[0]), src[1..], size)
  }

  lemma EscapedOntoFirst(body: string, src: string)
    requires src != ""
    ensures (body + EscapeChar(src[0])) + Escape(src[1..]) == body + Escape(src)
  {
  }

  lemma EscapedOntoNext(body: string, src: string, i: nat, size: nat)
    requires i < |src| && |body| + 7 <= size
    ensures EscapedOnto(body, src[i..], size) == EscapedOnto(body + EscapeChar(src[i]), src[i + 1..], size)
  {
    assert src[i..][1..] == src[i + 1..];
  }

  /** With room for the worst case, nothing is cut. */
  lemma {:induction false} EscapedFits(body: string, src: string, size: nat)
    requires |body| + 6 * |src| < size
    ensures EscapedOnto(body, src, size) == Some(body + Escape(src))
    decreases |src|
  {
    if src == "" {
      assert body + Escape(src) == body;
    } else {
      EscapedFits(body + EscapeChar(src[0]), src[1..], size);
      EscapedOntoFirst(body, src);
    }
  }

  /** What is never cut is always the whole escaped text. */
  lemma {:induction false} EscapedIsWhole(body: string, src: string, size: nat)
    ensures var r := EscapedOnto(body, src, size); r.Some? ==> r.value == body + Escape(src)
    decreases |src|
  {
    if src == "" {
      assert body + Escape(src) == body;
    } else if |body| + 7 <= size {
      EscapedIsWhole(body + EscapeChar(src[0]), src[1..], size);
      EscapedOntoFirst(body, src);
    }
  }

  class Response {
    const buf: array<char>
    var off: nat

    ghost predicate Valid()
      reads this, buf
    {
      off <= buf.Length
    }

    /** The text so far, or None once it was truncated. */
    ghost function Body(): Option<string>
      requires Valid()
      reads this, buf
    {
      if off < buf.Length then Some(buf[..off]) else None
    }

    constructor (size: nat)
      requires size > 0
      ensures Valid() && fresh(buf) && buf.Length == size && Body() == Some("")
    {
      buf := new char[size](_ => '\0');
      off := 0;
    }

    /** Copies what fits from `o` on, always leaving room for the terminator. */
    method Copy(o: nat, text: string)
      requires o < buf.Length
      modifies buf
      ensures buf[..o] == old(buf[..o])
      ensures o + |text| < buf.Length ==> buf[o..o + |text|] == text
    {
      var room := buf.Length - o - 1;
      var n := if |text| < room then |text| else room;
      for i := 0 to n
        invariant buf[..o] == old(buf[..o])
        invariant buf[o..o + i] == text[..i]
      {
        buf[o + i] := text[i];
        assert buf[o..o + i + 1] == buf[o..o + i] + [text[i]];
      }
      buf[o + n] := '\0';
      assert n == |text| ==> buf[o..o + n] == text;
    }

    method Append(text: string)
      requires Valid()
      modifies this`off, buf
      ensures Valid() && Body() == Appended(old(Body()), text, buf.Length)
    {
      if off < buf.Length {
        ghost var body := buf[..off];
        Copy(off, text);
        assert off + |text| < buf.Length ==> buf[..off + |text|] == body + text;
      }
      var end := off + |text|;
      off := if end > buf.Length then buf.Length else end;
    }

    /** One character, escaped; the room for it has been checked. */
    method CopyEscaped(o: nat, c: char) returns (end: nat)
      requires o + 7 <= buf.Length
      modifies buf
      ensures o < end < buf.Length && buf[..end] == old(buf[..o]) + EscapeChar(c)
    {
      var e := EscapeChar(c);
      Copy(o, e);
      end := o + |e|;
      assert buf[..end] == buf[..o] + buf[o..end];
    }

    method AppendEscaped(src: string)
      requires Valid()
      modifies this`off, buf
      ensures Valid()
      ensures Body() == if old(Body()).None? then None
                        else EscapedOnto(old(Body()).value, src, buf.Length)
    {
      if off >= buf.Length {
        off := buf.Length;
        return;
      }
      ghost var goal := EscapedOnto(buf[..off], src, buf.Length);
      var o := off;
      for i := 0 to |src|
        invariant 0 <= o < buf.Length && off == old(off)
        invariant EscapedOnto(buf[..o], src[i..], buf.Length) == goal
      {
        if o + 7 > buf.Length {
          off := buf.Length;
          return;
        }
        EscapedOntoNext(buf[..o], src, i, buf.Length);
        o := CopyEscaped(o, src[i]);
      }
      buf[o] := '\0';
      off := o;
    }
  }
}

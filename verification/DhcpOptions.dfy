/** Reading a client's message off the wire: option scanning and field extraction. */
module DhcpOptions {
  import opened Bytes
  import opened DhcpEvents

  const OPT_PAD: byte := 0
  const OPT_REQUESTED_IP: byte := 50
  const OPT_MSG_TYPE: byte := 53
  const OPT_SERVER_ID: byte := 54
  const OPT_END: byte := 255

  const COOKIE: seq<byte> := [0x63, 0x82, 0x53, 0x63]

  // ---- scanning ----

  /** The value of the first option `want` at or after offset `i`. */
  function Scan(opts: seq<byte>, i: nat, want: byte): Option<seq<byte>>
    decreases |opts| - i
  {
    if i + 1 >= |opts| || opts[i] == OPT_END then None
    else if opts[i] == OPT_PAD then Scan(opts, i + 1, want)
    else
      var len := opts[i + 1];
      if i + 2 + len > |opts| then None
      else if opts[i] == want then Some(Slice(opts, i + 2, len))
      else Scan(opts, i + 2 + len, want)
  }

  method FindOption(opts: seq<byte>, want: byte) returns (v: Option<seq<byte>>)
    ensures v == Scan(opts, 4, want)
  {
    var i := 4;
    while i + 1 < |opts|
      invariant Scan(opts, i, want) == Scan(opts, 4, want)
      decreases |opts| - i
    {
      var code := opts[i];
      if code == OPT_END {
        break;
      }
      if code == OPT_PAD {
        i := i + 1;
        continue;
      }
      var len := opts[i + 1];
      if i + 2 + len > |opts| {
        break;
      }
      if code == want {
        return Some(Slice(opts, i + 2, len));
      }
      i := i + 2 + len;
    }
    return None;
  }

  // ---- what a client writes ----

  datatype Item = Pad | Field(code: byte, data: seq<byte>) {
    predicate Ok() {
      Field? ==> code != OPT_PAD && code != OPT_END && |data| < 256
    }

    function Encode(): seq<byte>
      requires Ok()
    {
      match this
      case Pad => [OPT_PAD]
      case Field(c, d) => [c, |d|] + d
    }
  }

  predicate AllOk(items: seq<Item>) {
    forall k | 0 <= k < |items| :: items[k].Ok()
  }

  function EncodeItems(items: seq<Item>): seq<byte>
    requires AllOk(items)
  {
    if items == [] then [] else items[0].Encode() + EncodeItems(items[1..])
  }

  function FirstValue(items: seq<Item>, want: byte): Option<seq<byte>> {
    if items == [] then None
    else if items[0].Field? && items[0].code == want then Some(items[0].data)
    else FirstValue(items[1..], want)
  }

  lemma ScanOneItem(b: seq<byte>, i: nat, item: Item, want: byte)
    requires item.Ok() && want != OPT_PAD && want != OPT_END
    requires i + |item.Encode()| <= |b| && b[i..i + |item.Encode()|] == item.Encode()
    ensures Scan(b, i, want) ==
            if item.Field? && item.code == want then Some(item.data)
            else Scan(b, i + |item.Encode()|, want)
  {
    var e := item.Encode();
    assert b[i] == e[0];
    if item.Field? {
      assert b[i + 1] == e[1] == |item.data|;
      assert b[i + 2..i + 2 + |item.data|] == e[2..] == item.data;
    }
  }

  lemma SplitSuffix(b: seq<byte>, i: nat, e: seq<byte>, rest: seq<byte>, tail: seq<byte>)
    requires i <= |b| && b[i..] == (e + rest) + tail
    ensures i + |e| <= |b| && b[i..i + |e|] == e && b[i + |e|..] == rest + tail
  {
    assert b[i..][..|e|] == e;
    assert b[i..][|e|..] == rest + tail;
  }

  /** From offset `i` on, `b` holds the items, ended by an end marker or its own end. */
  predicate Written(b: seq<byte>, i: nat, items: seq<Item>)
    requires AllOk(items)
    decreases |items|
  {
    if items == [] then i == |b| || (i < |b| && b[i] == OPT_END)
    else
      var n := |items[0].Encode()|;
      i + n <= |b| && b[i..i + n] == items[0].Encode() && Written(b, i + n, items[1..])
  }

  lemma FirstIsWritten(b: seq<byte>, i: nat, items: seq<Item>, tail: seq<byte>) returns (next: nat)
    requires AllOk(items) && items != []
    requires i <= |b| && b[i..] == EncodeItems(items) + tail
    ensures next == i + |items[0].Encode()| <= |b| && b[i..next] == items[0].Encode()
    ensures b[next..] == EncodeItems(items[1..]) + tail
  {
    var e := items[0].Encode();
    SplitSuffix(b, i, e, EncodeItems(items[1..]), tail);
    next := i + |e|;
  }

  lemma {:induction false} EncodeIsWritten(b: seq<byte>, i: nat, items: seq<Item>, tail: seq<byte>)
    requires AllOk(items) && (tail == [] || tail[0] == OPT_END)
    requires i <= |b| && b[i..] == EncodeItems(items) + tail
    ensures Written(b, i, items)
    decreases |items|
  {
    if items == [] {
      SplitSuffix(b, i, [], [], tail);
    } else {
      var next := FirstIsWritten(b, i, items, tail);
      EncodeIsWritten(b, next, items[1..], tail);
    }
  }

  /** Scanning what a client wrote gives the first value written under that code. */
  lemma {:induction false} ScanFindsFirst(b: seq<byte>, i: nat, items: seq<Item>, want: byte)
    requires AllOk(items) && want != OPT_PAD && want != OPT_END
    requires Written(b, i, items)
    ensures Scan(b, i, want) == FirstValue(items, want)
    decreases |items|
  {
    if items != [] {
      ScanOneItem(b, i, items[0], want);
      ScanFindsFirst(b, i + |items[0].Encode()|, items[1..], want);
    }
  }

  // ---- the message ----

  /** The fields of a received message that are looked at. `options` is what was
      received of the options area, magic cookie included. */
  datatype Packet = Packet(
    op: byte, hlen: byte, ciaddr: u32, giaddr: u32, chaddr: Mac, options: seq<byte>)

  function AddressIn(v: Option<seq<byte>>, default: u32): u32 {
    if v.Some? && |v.value| >= 4 then FromBe(Slice(v.value, 0, 4)) else default
  }

  /** What the message asks for, or None if it is dropped unread. */
  function ParsePacket(p: Packet, onWire: bool): Option<Message> {
    if |p.options| < 4 || p.op != 1 || p.hlen != 6 then None
    else if p.options[..4] != COOKIE || p.giaddr != 0 then None
    else
      var t := Scan(p.options, 4, OPT_MSG_TYPE);
      if t.None? || |t.value| < 1 then None
      else
        var requested := AddressIn(Scan(p.options, 4, OPT_REQUESTED_IP), p.ciaddr);
        var serverId := AddressIn(Scan(p.options, 4, OPT_SERVER_ID), 0);
        Some(MessageOf(t.value[0], p.chaddr, requested, serverId, p.ciaddr, onWire))
  }

  function MessageOf(kind: byte, mac: Mac, requested: u32, serverId: u32, ciaddr: u32, onWire: bool): Message {
    if kind == 1 then Discover(mac, requested, onWire)
    else if kind == 3 then Request(mac, requested, serverId, onWire)
    else if kind == 4 then Decline(mac, requested)
    else if kind == 7 then Release(mac)
    else if kind == 8 then Inform(mac, ciaddr)
    else Other
  }

  /** A message written with a type, and optionally a requested address and a
      server id, is understood as exactly that: the option beats `ciaddr`. */
  lemma MessageRoundTrip(p: Packet, items: seq<Item>, tail: seq<byte>, kind: byte, onWire: bool)
    requires AllOk(items) && (tail == [] || tail[0] == OPT_END)
    requires p.op == 1 && p.hlen == 6 && p.giaddr == 0
    requires p.options == COOKIE + EncodeItems(items) + tail
    requires FirstValue(items, OPT_MSG_TYPE) == Some([kind])
    ensures forall asked: u32 | FirstValue(items, OPT_REQUESTED_IP) == Some(Be(asked, 4)) ::
              ParsePacket(p, onWire) ==
              Some(MessageOf(kind, p.chaddr, asked,
                             AddressIn(FirstValue(items, OPT_SERVER_ID), 0), p.ciaddr, onWire))
    ensures FirstValue(items, OPT_REQUESTED_IP) == None ==>
              ParsePacket(p, onWire) ==
              Some(MessageOf(kind, p.chaddr, p.ciaddr,
                             AddressIn(FirstValue(items, OPT_SERVER_ID), 0), p.ciaddr, onWire))
  {
    assert p.options[0..] == p.options;
    SplitSuffix(p.options, 0, COOKIE, EncodeItems(items), tail);
    EncodeIsWritten(p.options, 4, items, tail);
    ScanFindsFirst(p.options, 4, items, OPT_MSG_TYPE);
    ScanFindsFirst(p.options, 4, items, OPT_REQUESTED_IP);
    ScanFindsFirst(p.options, 4, items, OPT_SERVER_ID);
    forall asked: u32 | FirstValue(items, OPT_REQUESTED_IP) == Some(Be(asked, 4))
      ensures AddressIn(FirstValue(items, OPT_REQUESTED_IP), p.ciaddr) == asked
    {
      BeRoundTrip(asked, 4);
      assert Slice(Be(asked, 4), 0, 4) == Be(asked, 4);
    }
  }
}

/** The wire format: segment header, its little-endian codec, and datagrams of several segments. */
module Protocol {
  import opened Word

  const RTO_NDL: u32 := 30
  const RTO_MIN: u32 := 100
  const RTO_DEF: u32 := 200
  const RTO_MAX: u32 := 60000
  const CMD_PUSH: byte := 81
  const CMD_ACK: byte := 82
  const CMD_WASK: byte := 83
  const CMD_WINS: byte := 84
  const WND_RCV: u16 := 128
  const OVERHEAD: u32 := 24
  const THRESH_INIT: u32 := 2
  const THRESH_MIN: u32 := 2
  const PROBE_INIT: u32 := 7000
  const PROBE_LIMIT: u32 := 120000
  const FASTACK_LIMIT: u32 := 5

  datatype Option<+T> = None | Some(value: T)

  datatype Header = Header(conv: u32, cmd: byte, frg: byte, wnd: u16, ts: u32, sn: u32, una: u32, len: u32)

  /** A segment as it travels: its length field is always the length of its data. Sequence numbers
      are u32 on the wire; the exact arithmetic writes unbounded ones here. */
  datatype Wire = Wire(conv: u32, cmd: byte, frg: byte, wnd: u16, ts: u32, sn: int, una: int, data: Bytes)

  /** What is left of a wire segment's sequence numbers in 32 bits. */
  function WrapWire(w: Wire): Wire {
    w.(sn := U(w.sn), una := U(w.una))
  }

  function WrapWires(ws: seq<Wire>): (r: seq<Wire>)
    ensures |r| == |ws|
    ensures forall i :: 0 <= i < |ws| ==> r[i] == WrapWire(ws[i])
  {
    seq(|ws|, i requires 0 <= i < |ws| => WrapWire(ws[i]))
  }

  // ---- Little-endian fields ----

  function PutU16(x: u16): (r: Bytes)
    ensures |r| == 2
  {
    [x % 0x100, x / 0x100]
  }

  function PutU32(x: u32): (r: Bytes)
    ensures |r| == 4
  {
    [x % 0x100, x / 0x100 % 0x100, x / 0x1_0000 % 0x100, x / 0x100_0000]
  }

  function GetU16(b: Bytes, at: nat): u16
    requires at + 2 <= |b|
  {
    var b0: int, b1: int := b[at], b[at + 1];
    b0 + 0x100 * b1
  }

  function GetU32(b: Bytes, at: nat): u32
    requires at + 4 <= |b|
  {
    var b0: int, b1: int, b2: int, b3: int := b[at], b[at + 1], b[at + 2], b[at + 3];
    b0 + 0x100 * b1 + 0x1_0000 * b2 + 0x100_0000 * b3
  }

  lemma Digits(x: u32)
    ensures x == x % 0x100 + 0x100 * (x / 0x100 % 0x100) + 0x1_0000 * (x / 0x1_0000 % 0x100)
            + 0x100_0000 * (x / 0x100_0000)
  {
    var q1 := x / 0x100;
    var q2 := q1 / 0x100;
    assert x / 0x1_0000 == q2 && x / 0x100_0000 == q2 / 0x100;
    assert x == x % 0x100 + 0x100 * q1 && q1 == q1 % 0x100 + 0x100 * q2 && q2 == q2 % 0x100 + 0x100 * (q2 / 0x100);
  }

  lemma PutGetU32(x: u32, b: Bytes, at: nat)
    requires at + 4 <= |b| && b[at..at + 4] == PutU32(x)
    ensures GetU32(b, at) == x
  {
    var s := b[at..at + 4];
    Digits(x);
    assert b[at] == s[0] && b[at + 1] == s[1] && b[at + 2] == s[2] && b[at + 3] == s[3];
  }

  lemma GetPutU32(b: Bytes, at: nat)
    requires at + 4 <= |b|
    ensures PutU32(GetU32(b, at)) == b[at..at + 4]
  {
    var b0: int, b1: int, b2: int, b3: int := b[at], b[at + 1], b[at + 2], b[at + 3];
    var x := GetU32(b, at);
    var y := b1 + 0x100 * (b2 + 0x100 * b3);
    assert x == b0 + 0x100 * y;
    assert x % 0x100 == b0 && x / 0x100 == y;
    assert x / 0x1_0000 == y / 0x100 == b2 + 0x100 * b3;
    assert x / 0x100_0000 == b3;
  }

  lemma GetPutU16(b: Bytes, at: nat)
    requires at + 2 <= |b|
    ensures PutU16(GetU16(b, at)) == b[at..at + 2]
  {
  }

  // ---- Header ----

  function EncodeHeader(h: Header): (r: Bytes)
    ensures |r| == 24
  {
    PutU32(h.conv) + [h.cmd, h.frg] + PutU16(h.wnd) + PutU32(h.ts) + PutU32(h.sn) + PutU32(h.una) + PutU32(h.len)
  }

  function DecodeHeader(b: Bytes): Option<Header> {
    if |b| < 24 then None
    else Some(Header(GetU32(b, 0), b[4], b[5], GetU16(b, 6), GetU32(b, 8), GetU32(b, 12), GetU32(b, 16), GetU32(b, 20)))
  }

  /** `b` holds the 32-bit `x` at position `at`, lowest byte first. */
  predicate HoldsU32(b: Bytes, at: nat, x: u32) {
    at + 4 <= |b| && x == b[at] as int + 256 * b[at + 1] as int + 65536 * b[at + 2] as int + 16777216 * b[at + 3] as int
  }

  lemma PutHolds(b: Bytes, at: nat, x: u32)
    requires at + 4 <= |b| && b[at..at + 4] == PutU32(x)
    ensures HoldsU32(b, at, x)
  {
    var s := b[at..at + 4];
    Digits(x);
    assert b[at] == s[0] && b[at + 1] == s[1] && b[at + 2] == s[2] && b[at + 3] == s[3];
  }

  /** The layout of a header, byte by byte: conversation, command, fragment, window, time stamp, number,
      number expected next, and length, all little-endian. */
  lemma HeaderLayout(h: Header)
    ensures var b := EncodeHeader(h);
            && HoldsU32(b, 0, h.conv) && b[4] == h.cmd && b[5] == h.frg
            && h.wnd == b[6] as int + 256 * b[7] as int
            && HoldsU32(b, 8, h.ts) && HoldsU32(b, 12, h.sn) && HoldsU32(b, 16, h.una) && HoldsU32(b, 20, h.len)
  {
    var b := EncodeHeader(h);
    assert b[0..4] == PutU32(h.conv) && b[8..12] == PutU32(h.ts) && b[12..16] == PutU32(h.sn);
    assert b[16..20] == PutU32(h.una) && b[20..24] == PutU32(h.len);
    PutHolds(b, 0, h.conv);
    PutHolds(b, 8, h.ts);
    PutHolds(b, 12, h.sn);
    PutHolds(b, 16, h.una);
    PutHolds(b, 20, h.len);
    assert b[6..8] == PutU16(h.wnd);
    assert b[6] == b[6..8][0] && b[7] == b[6..8][1];
    hide PutU32;
  }

  /** So a segment on the wire is that header and its data. */
  lemma WireLayout(w: Wire)
    requires |w.data| < M32
    ensures var b := EncodeWire(w);
            && |b| == 24 + |w.data| && b[24..] == w.data
            && HoldsU32(b, 0, w.conv) && b[4] == w.cmd && b[5] == w.frg && w.wnd == b[6] as int + 256 * b[7] as int
            && HoldsU32(b, 8, w.ts) && HoldsU32(b, 12, w.sn % M32) && HoldsU32(b, 16, w.una % M32)
            && HoldsU32(b, 20, |w.data|)
  {
    HeaderLayout(HeaderOf(w));
    var h := EncodeHeader(HeaderOf(w));
    assert forall i :: 0 <= i < 24 ==> EncodeWire(w)[i] == h[i];
    hide EncodeHeader;
  }

  /** Decoding a header gives back exactly the header encoded, whatever follows it. */
  lemma HeaderRoundTrip(h: Header, rest: Bytes)
    ensures DecodeHeader(EncodeHeader(h) + rest) == Some(h)
  {
    var b := EncodeHeader(h) + rest;
    assert b[0..4] == PutU32(h.conv);
    assert b[4] == h.cmd && b[5] == h.frg;
    assert b[6..8] == PutU16(h.wnd);
    assert b[6] == b[6..8][0] && b[7] == b[6..8][1];
    assert b[8..12] == PutU32(h.ts);
    assert b[12..16] == PutU32(h.sn);
    assert b[16..20] == PutU32(h.una);
    assert b[20..24] == PutU32(h.len);
    PutGetU32(h.conv, b, 0);
    PutGetU32(h.ts, b, 8);
    PutGetU32(h.sn, b, 12);
    PutGetU32(h.una, b, 16);
    PutGetU32(h.len, b, 20);
  }

  /** Every 24 bytes are the encoding of the header they decode to. */
  lemma HeaderDecodeInjective(b: Bytes)
    requires |b| >= 24
    ensures EncodeHeader(DecodeHeader(b).value) == b[..24]
  {
    GetPutU16(b, 6);
    hide GetU16, PutU16, GetU32, PutU32;
    GetPutU32(b, 0);
    GetPutU32(b, 8);
    GetPutU32(b, 12);
    GetPutU32(b, 16);
    GetPutU32(b, 20);
    assert b[..24] == b[0..4] + [b[4], b[5]] + b[6..8] + b[8..12] + b[12..16] + b[16..20] + b[20..24];
  }

  // ---- Segment ----

  function HeaderOf(w: Wire): Header {
    Header(w.conv, w.cmd, w.frg, w.wnd, w.ts, U(w.sn), U(w.una), U(|w.data|))
  }

  function WireOf(h: Header, data: Bytes): Wire {
    Wire(h.conv, h.cmd, h.frg, h.wnd, h.ts, h.sn, h.una, data)
  }

  function WireSize(w: Wire): nat {
    24 + |w.data|
  }

  function EncodeWire(w: Wire): (r: Bytes)
    ensures |r| == WireSize(w)
  {
    EncodeHeader(HeaderOf(w)) + w.data
  }

  function DecodeWire(b: Bytes): Option<Wire> {
    match DecodeHeader(b)
    case None => None
    case Some(h) => if |b| - 24 != h.len then None else Some(WireOf(h, b[24..]))
  }

  // ---- Datagram ----

  function DatagramSize(ws: seq<Wire>): nat {
    if ws == [] then 0 else DatagramSize(ws[..|ws| - 1]) + WireSize(ws[|ws| - 1])
  }

  /** Segments packed back to back, in order. */
  function EncodeDatagram(ws: seq<Wire>): (r: Bytes)
    ensures |r| == DatagramSize(ws)
  {
    if ws == [] then [] else EncodeDatagram(ws[..|ws| - 1]) + EncodeWire(ws[|ws| - 1])
  }

  /** `b` starts with a complete segment: a header, and as much data as it announces. */
  predicate HoldsSegment(b: Bytes) {
    |b| >= 24 && |b| >= FrontSize(b)
  }

  function FrontSize(b: Bytes): (r: nat)
    requires |b| >= 24
    ensures r >= 24
  {
    24 + GetU32(b, 20)
  }

  /** The segments the receiving loop takes from a datagram: it stops at a tail that is shorter
      than a header or than the length its header announces. */
  function ParseDatagram(b: Bytes): (ws: seq<Wire>)
    decreases |b|
  {
    if !HoldsSegment(b) then []
    else match DecodeWire(b[..FrontSize(b)])
      case None => []
      case Some(w) => [w] + ParseDatagram(b[FrontSize(b)..])
  }

  lemma EncodeSnoc(ws: seq<Wire>, w: Wire)
    ensures EncodeDatagram(ws + [w]) == EncodeDatagram(ws) + EncodeWire(w)
  {
    assert (ws + [w])[..|ws|] == ws;
  }

  lemma {:induction false} EncodeCons(w: Wire, ws: seq<Wire>)
    ensures EncodeDatagram([w] + ws) == EncodeWire(w) + EncodeDatagram(ws)
    decreases |ws|
  {
    if ws == [] {
      EncodeSnoc([], w);
      assert [] + [w] == [w] + ws;
    } else {
      hide *;
      var init, last := ws[..|ws| - 1], ws[|ws| - 1];
      assert ws == init + [last];
      assert [w] + ws == ([w] + init) + [last];
      calc {
        EncodeDatagram([w] + ws);
        { EncodeSnoc([w] + init, last); }
        EncodeDatagram([w] + init) + EncodeWire(last);
        { EncodeCons(w, init); }
        (EncodeWire(w) + EncodeDatagram(init)) + EncodeWire(last);
        EncodeWire(w) + (EncodeDatagram(init) + EncodeWire(last));
        { EncodeSnoc(init, last); }
        EncodeWire(w) + EncodeDatagram(ws);
      }
    }
  }

  /** A segment is read back as sent, up to the 32 bits its sequence numbers keep. */
  lemma WireRoundTrip(w: Wire, rest: Bytes)
    requires |w.data| < M32
    ensures var b := EncodeWire(w) + rest;
            DecodeHeader(b) == Some(HeaderOf(w)) && DecodeWire(b[..WireSize(w)]) == Some(WrapWire(w))
  {
    var b := EncodeWire(w) + rest;
    assert b == EncodeHeader(HeaderOf(w)) + (w.data + rest);
    HeaderRoundTrip(HeaderOf(w), w.data + rest);
    assert b[..WireSize(w)] == EncodeWire(w);
    HeaderRoundTrip(HeaderOf(w), w.data);
    assert EncodeWire(w)[24..] == w.data;
  }

  lemma ParseShort(b: Bytes)
    requires |b| < 24
    ensures ParseDatagram(b) == []
  {
  }

  lemma ParseCons(w: Wire, rest: Bytes)
    requires |w.data| < M32
    ensures ParseDatagram(EncodeWire(w) + rest) == [WrapWire(w)] + ParseDatagram(rest)
  {
    var b := EncodeWire(w) + rest;
    WireRoundTrip(w, rest);
    assert HeaderOf(w).len == |w.data|;
    assert b[WireSize(w)..] == rest;
  }

  lemma NothingEncoded()
    ensures EncodeDatagram([]) == [] && WrapWires([]) == []
  {
  }

  lemma WrapCons(w: Wire, ws: seq<Wire>)
    ensures WrapWires([w] + ws) == [WrapWire(w)] + WrapWires(ws)
  {
    hide WrapWire;
  }

  /** Parsing undoes packing: the receiver's loop finds exactly the packed segments, in order. */
  lemma {:induction false} DatagramRoundTrip(ws: seq<Wire>)
    requires forall w :: w in ws ==> |w.data| < M32
    ensures ParseDatagram(EncodeDatagram(ws)) == WrapWires(ws)
    decreases |ws|
  {
    hide ParseDatagram, EncodeDatagram, EncodeWire, WrapWires, WrapWire;
    if ws != [] {
      var w, rest := ws[0], ws[1..];
      assert ws == [w] + rest;
      EncodeCons(w, rest);
      ParseCons(w, EncodeDatagram(rest));
      DatagramRoundTrip(rest);
      WrapCons(w, rest);
    } else {
      NothingEncoded();
      ParseShort([]);
    }
  }

  lemma FrontSegment(b: Bytes)
    requires HoldsSegment(b)
    ensures var front := b[..FrontSize(b)];
            DecodeWire(front).Some? && EncodeWire(DecodeWire(front).value) == front
  {
    hide GetU16, PutU16, PutU32;
    var front := b[..FrontSize(b)];
    assert GetU32(front, 20) == GetU32(b, 20);
    HeaderDecodeInjective(front);
    hide GetU32;
    assert front == front[..24] + front[24..];
  }

  lemma TakeFront(b: Bytes) returns (w: Wire, rest: Bytes)
    requires HoldsSegment(b)
    ensures b == EncodeWire(w) + rest && ParseDatagram(b) == [w] + ParseDatagram(rest)
  {
    FrontSegment(b);
    hide DecodeWire, EncodeWire, FrontSize;
    w, rest := DecodeWire(b[..FrontSize(b)]).value, b[FrontSize(b)..];
  }

  lemma ParseEnds(b: Bytes)
    requires !HoldsSegment(b)
    ensures ParseDatagram(b) == []
  {
  }

  /** Packing undoes parsing: on any bytes whatever, the segments found are the ones packed in
      front, and the ignored tail holds no complete segment. */
  lemma {:induction false} ParseIsFaithful(b: Bytes) returns (tail: Bytes)
    ensures b == EncodeDatagram(ParseDatagram(b)) + tail && !HoldsSegment(tail)
    decreases |b|
  {
    hide HoldsSegment, ParseDatagram, EncodeWire;
    if HoldsSegment(b) {
      var w, rest := TakeFront(b);
      tail := ParseIsFaithful(rest);
      var ws := ParseDatagram(rest);
      EncodeCons(w, ws);
      assert EncodeWire(w) + (EncodeDatagram(ws) + tail) == (EncodeWire(w) + EncodeDatagram(ws)) + tail;
    } else {
      ParseEnds(b);
      tail := b;
    }
  }
}

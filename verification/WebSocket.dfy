/** Home Assistant's WebSocket, as scripts/ha_iot_setup.py speaks it: one masked frame out,
    fragmented messages in. The wire format is RFC 6455's, sections 5.2 to 5.5. */
module WebSocket {
  import opened Numbers
  import opened Text

  /** A byte by its value. `b & 0x7F`, `b & 0x0F` and `b & 0x80 != 0` are then `b % 128`, `b % 16`
      and `b >= 128`, and `0x80 | n` for n below 128 is `128 + n`. */
  type Byte = b: int | 0 <= b < 256

  // ---- numbers on the wire --------------------------------------------------------

  /** `struct.pack` of an unsigned number in `k` bytes, the most significant first. */
  function BigEndian(n: nat, k: nat): (bs: seq<Byte>)
    ensures |bs| == k
  {
    if k == 0 then [] else BigEndian(n / 256, k - 1) + [n % 256]
  }

  /** `struct.unpack` of the same. */
  function FromBigEndian(bs: seq<Byte>): nat {
    if bs == [] then 0 else FromBigEndian(bs[..|bs| - 1]) * 256 + bs[|bs| - 1]
  }

  function Pow256(k: nat): (p: nat)
    ensures p > 0
  {
    if k == 0 then 1 else 256 * Pow256(k - 1)
  }

  lemma {:induction false} BigEndianInverse(n: nat, k: nat)
    requires n < Pow256(k)
    ensures FromBigEndian(BigEndian(n, k)) == n
  {
    if k > 0 {
      BigEndianInverse(n / 256, k - 1);
      var bs := BigEndian(n, k);
      assert bs[..k - 1] == BigEndian(n / 256, k - 1);
    }
  }

  /** Each byte of a packed number by its place, the most significant first. */
  lemma {:induction false} BigEndianByte(n: nat, k: nat, i: nat)
    requires i < k
    ensures BigEndian(n, k)[i] == n / Pow256(k - 1 - i) % 256
  {
    if i < k - 1 {
      BigEndianByte(n / 256, k - 1, i);
      DivideTwice(n, Pow256(k - 2 - i));
    }
  }

  lemma DivideTwice(n: nat, m: nat)
    requires m > 0
    ensures n / 256 / m == n / (256 * m)
  {
    var a, b := n / 256, n % 256;
    var q, r := a / m, a % m;
    assert q * (256 * m) == 256 * (q * m);
    assert n == q * (256 * m) + (256 * r + b);
    DivUnique(n, 256 * m, q, 256 * r + b);
  }

  lemma WireSizes()
    ensures Pow256(2) == 0x1_0000 && Pow256(8) == 0x1_0000_0000_0000_0000
  {
    assert Pow256(1) == 256 && Pow256(2) == 256 * Pow256(1);
    assert Pow256(4) == 256 * Pow256(3) == 256 * 256 * Pow256(2);
    assert Pow256(6) == 256 * Pow256(5) == 256 * 256 * Pow256(4);
    assert Pow256(8) == 256 * Pow256(7) == 256 * 256 * Pow256(6);
  }

  // ---- masking (RFC 6455, section 5.3) -------------------------------------------------

  /** `a ^ b` on numbers of `bits` bits, bit by bit. */
  function Xor(a: nat, b: nat, bits: nat): (r: nat) {
    if bits == 0 then 0 else Xor(a / 2, b / 2, bits - 1) * 2 + (a % 2 + b % 2) % 2
  }

  lemma {:induction false} XorFits(a: nat, b: nat, bits: nat)
    ensures Xor(a, b, bits) < Pow2(bits)
  {
    if bits > 0 {
      XorFits(a / 2, b / 2, bits - 1);
    }
  }

  lemma BackAgain(x: nat, y: nat)
    requires x < 2 && y < 2
    ensures ((x + y) % 2 + y) % 2 == x
  {
  }

  lemma LowBit(high: nat, low: nat)
    requires low < 2
    ensures (high * 2 + low) / 2 == high && (high * 2 + low) % 2 == low
  {
  }

  lemma {:induction false} XorTwice(a: nat, b: nat, bits: nat)
    requires a < Pow2(bits)
    ensures Xor(Xor(a, b, bits), b, bits) == a
  {
    if bits > 0 {
      XorTwice(a / 2, b / 2, bits - 1);
      var high, low := Xor(a / 2, b / 2, bits - 1), (a % 2 + b % 2) % 2;
      var x := Xor(a, b, bits);
      assert x == high * 2 + low;
      LowBit(high, low);
      BackAgain(a % 2, b % 2);
      assert Xor(x, b, bits) == Xor(high, b / 2, bits - 1) * 2 + (low + b % 2) % 2;
    }
  }

  /** The i-th bit, from the least significant. */
  function Bit(x: nat, i: nat): nat {
    if i == 0 then x % 2 else Bit(x / 2, i - 1)
  }

  /** A bit of the result is 1 exactly when the operands differ there. */
  lemma {:induction false} XorBits(a: nat, b: nat, bits: nat, i: nat)
    requires i < bits
    ensures Bit(Xor(a, b, bits), i) == 1 <==> Bit(a, i) != Bit(b, i)
  {
    LowBit(Xor(a / 2, b / 2, bits - 1), (a % 2 + b % 2) % 2);
    if i > 0 { XorBits(a / 2, b / 2, bits - 1, i - 1); }
  }

  lemma EightBits()
    ensures Pow2(8) == 256
  {
    assert Pow2(3) == 8 && Pow2(6) == 8 * Pow2(3) && Pow2(8) == 4 * Pow2(6);
  }

  function XorBytes(a: Byte, b: Byte): Byte {
    XorFits(a, b, 8);
    EightBits();
    Xor(a, b, 8)
  }

  function Masked(payload: seq<Byte>, mask: seq<Byte>): seq<Byte>
    requires |mask| == 4
  {
    seq(|payload|, i requires 0 <= i < |payload| => XorBytes(payload[i], mask[i % 4]))
  }

  /** Masking bit by bit, the four bytes of the mask in turn. */
  lemma MaskedBits(payload: seq<Byte>, mask: seq<Byte>, j: nat, i: nat)
    requires |mask| == 4 && j < |payload| && i < 8
    ensures Bit(Masked(payload, mask)[j], i) == 1 <==> Bit(payload[j], i) != Bit(mask[j % 4], i)
  {
    XorBits(payload[j], mask[j % 4], 8, i);
  }

  lemma MaskTwice(payload: seq<Byte>, mask: seq<Byte>)
    requires |mask| == 4
    ensures Masked(Masked(payload, mask), mask) == payload
  {
    var m := Masked(payload, mask);
    forall i | 0 <= i < |payload| ensures Masked(m, mask)[i] == payload[i] {
      EightBits();
      XorTwice(payload[i], mask[i % 4], 8);
    }
  }

  // ---- frames (RFC 6455, section 5.2) -----------------------------------------------

  datatype Frame = Frame(fin: bool, opcode: Byte, masked: bool, payload: seq<Byte>)

  /** A length's top bit must be 0 (section 5.2). */
  const MAX_PAYLOAD: nat := 0x8000_0000_0000_0000

  /** Above this `struct.pack` refuses the length. */
  const MAX_SIZE: nat := 0x1_0000_0000_0000_0000

  /** How many bytes of extended length follow a 7-bit length. */
  function Extended(short: nat): nat {
    if short == 126 then 2 else if short == 127 then 8 else 0
  }

  /** A reader that follows the standard: the length must be in the fewest bytes, its top bit 0;
      the masking key comes after it. None when the bytes don't hold a frame. */
  function DecodeFrame(bs: seq<Byte>): Option<(Frame, seq<Byte>)> {
    if |bs| < 2 then None
    else
      var short := bs[1] % 128;
      var ext := Extended(short);
      var masked := bs[1] >= 128;
      var head := 2 + ext + (if masked then 4 else 0);
      if |bs| < head then None
      else
        var size := if ext == 0 then short else FromBigEndian(bs[2..2 + ext]);
        if (ext == 2 && size < 126) || (ext == 8 && size < 0x1_0000) || size >= MAX_PAYLOAD || |bs| < head + size
          then None
        else
          var raw := bs[head..head + size];
          var payload := if masked then Masked(raw, bs[2 + ext..head]) else raw;
          Some((Frame(bs[0] >= 128, bs[0] % 16, masked, payload), bs[head + size..]))
  }

  // ---- sending -------------------------------------------------------------------------

  function LengthBytes(size: nat, masked: bool): seq<Byte>
    requires size < MAX_SIZE
  {
    var flag := if masked then 0x80 else 0;
    if size < 126 then [flag + size]
    else if size < 65536 then [flag + 126] + BigEndian(size, 2)
    else [flag + 127] + BigEndian(size, 8)
  }

  /** The bytes _send puts on the wire. */
  function SentFrame(payload: seq<Byte>, mask: seq<Byte>): seq<Byte>
    requires |payload| < MAX_SIZE && |mask| == 4
  {
    [0x81] + LengthBytes(|payload|, true) + mask + Masked(payload, mask)
  }

  /** _send: the header grown piece by piece, then mask and masked payload. */
  method Send(payload: seq<Byte>, mask: seq<Byte>) returns (sent: seq<Byte>)
    requires |payload| < MAX_SIZE && |mask| == 4
    ensures sent == SentFrame(payload, mask)
    ensures |payload| < MAX_PAYLOAD ==> DecodeFrame(sent) == Some((Frame(true, 0x1, true, payload), []))
  {
    var size := |payload|;
    var head: seq<Byte> := [0x81];
    if size < 126 {
      head := head + [0x80 + size];
    } else if size < 65536 {
      head := head + ([0x80 + 126] + BigEndian(size, 2));
    } else {
      head := head + ([0x80 + 127] + BigEndian(size, 8));
    }
    sent := head + mask + Masked(payload, mask);
    if size < MAX_PAYLOAD {
      SentFrameDecodes(payload, mask, []);
      assert sent + [] == sent;
    }
  }

  /** Header and length bytes read back, whatever follows them. */
  lemma HeaderReads(b1: Byte, size: nat, masked: bool, rest: seq<Byte>)
    requires size < MAX_SIZE
    ensures var l := LengthBytes(size, masked);
      var bs := [b1] + l + rest;
      var short := bs[1] % 128;
      && bs[0] == b1 && (bs[1] >= 128 <==> masked) && |l| == 1 + Extended(short)
      && (Extended(short) == 0 ==> size == short)
      && (Extended(short) != 0 ==> FromBigEndian(bs[2..2 + Extended(short)]) == size)
      && (Extended(short) == 2 ==> 126 <= size) && (Extended(short) == 8 ==> 0x1_0000 <= size)
  {
    var l := LengthBytes(size, masked);
    var bs := [b1] + l + rest;
    WireSizes();
    if 126 <= size < 65536 {
      BigEndianInverse(size, 2);
      assert bs[2..4] == BigEndian(size, 2);
    } else if 65536 <= size {
      BigEndianInverse(size, 8);
      assert bs[2..10] == BigEndian(size, 8);
    }
  }

  lemma CutAt(a: seq<Byte>, b: seq<Byte>)
    ensures (a + b)[..|a|] == a && (a + b)[|a|..] == b
  {
  }

  lemma CutMiddle(a: seq<Byte>, b: seq<Byte>, c: seq<Byte>)
    ensures (a + (b + c))[|a|..|a| + |b|] == b && (a + (b + c))[|a| + |b|..] == c
  {
    CutAt(a, b + c);
    CutAt(b, c);
    var bs := a + (b + c);
    assert bs[|a|..|a| + |b|] == bs[|a|..][..|b|];
    assert bs[|a| + |b|..] == bs[|a|..][|b|..];
  }

  lemma Regroup(a: seq<Byte>, b: seq<Byte>, c: seq<Byte>, d: seq<Byte>)
    ensures a + b + c + d == a + (b + (c + d)) && a + b + c + d == (a + b) + (c + d)
  {
  }

  /** A frame's bytes read back, whatever follows them. */
  lemma FrameParses(b1: Byte, masked: bool, key: seq<Byte>, raw: seq<Byte>, rest: seq<Byte>)
    requires |raw| < MAX_PAYLOAD && |key| == (if masked then 4 else 0)
    ensures DecodeFrame([b1] + LengthBytes(|raw|, masked) + key + raw + rest)
      == Some((Frame(b1 >= 128, b1 % 16, masked, if masked then Masked(raw, key) else raw), rest))
  {
    var h := [b1] + LengthBytes(|raw|, masked);
    HeaderReads(b1, |raw|, masked, key + (raw + rest));
    Regroup(h, key, raw, rest);
    CutMiddle(h, key, raw + rest);
    CutMiddle(h + key, raw, rest);
  }

  /** What _send writes is one final, masked text frame holding the payload, for every payload
      and mask, and nothing of what follows is taken for it. */
  lemma SentFrameDecodes(payload: seq<Byte>, mask: seq<Byte>, rest: seq<Byte>)
    requires |payload| < MAX_PAYLOAD && |mask| == 4
    ensures DecodeFrame(SentFrame(payload, mask) + rest) == Some((Frame(true, 0x1, true, payload), rest))
  {
    FrameParses(0x81, true, mask, Masked(payload, mask), rest);
    MaskTwice(payload, mask);
  }

  /** The bytes sent, one by one: a final text frame, masked, its length in one, three or nine bytes,
      the mask, and the payload under it. */
  lemma SentLayout(payload: seq<Byte>, mask: seq<Byte>)
    requires |payload| < MAX_SIZE && |mask| == 4
    ensures var bs, n := SentFrame(payload, mask), |payload|;
      var head := if n < 126 then 2 else if n < 0x1_0000 then 4 else 10;
      && |bs| == head + 4 + n && bs[0] == 0x81
      && bs[1] == (if n < 126 then 0x80 + n else if n < 0x1_0000 then 0xFE else 0xFF)
      && (head == 4 ==> bs[2] == n / 256 % 256 && bs[3] == n % 256)
      && (head == 10 ==> forall i :: 0 <= i < 8 ==> bs[2..10][i] == n / Pow256(7 - i) % 256)
      && bs[head..head + 4] == mask && bs[head + 4..] == Masked(payload, mask)
  {
    var n := |payload|;
    if 126 <= n < 0x1_0000 {
      BigEndianByte(n, 2, 0);
      BigEndianByte(n, 2, 1);
      assert Pow256(0) == 1 && Pow256(1) == 256;
    }
    if 0x1_0000 <= n {
      forall i | 0 <= i < 8 ensures BigEndian(n, 8)[i] == n / Pow256(7 - i) % 256 { BigEndianByte(n, 8, i); }
    }
  }

  // ---- receiving -----------------------------------------------------------------------

  /** One frame as _recv reads it: no check of the length's form, and a masked payload stays
      masked. None when the stream ends first. */
  function ReadFrame(stream: seq<Byte>): (r: Option<(Byte, seq<Byte>, seq<Byte>)>)
    ensures r.Some? ==> |r.value.2| < |stream|
  {
    if |stream| < 2 then None
    else
      var short := stream[1] % 128;
      var ext := Extended(short);
      if |stream| < 2 + ext then None
      else
        var size := if ext == 0 then short else FromBigEndian(stream[2..2 + ext]);
        if |stream| < 2 + ext + size then None
        else Some((stream[0], stream[2 + ext..2 + ext + size], stream[2 + ext + size..]))
  }

  datatype Received = Message(data: seq<Byte>, rest: seq<Byte>) | SocketClosed

  /** What _recv makes of a stream, given the data of the fragments already in. */
  function RecvFrom(stream: seq<Byte>, data: seq<Byte>): Received
    decreases |stream|
  {
    match ReadFrame(stream)
    case None => SocketClosed
    case Some((b1, payload, rest)) =>
      if b1 % 16 == 0x9 || b1 % 16 == 0xA then RecvFrom(rest, data)
      else if b1 % 16 == 0x8 then SocketClosed
      else if b1 >= 128 then Message(data + payload, rest)
      else RecvFrom(rest, data + payload)
  }

  /** The socket: what the server has sent and nobody has read yet, after which it is closed. */
  class Socket {
    var incoming: seq<Byte>

    constructor (stream: seq<Byte>)
      ensures incoming == stream
    {
      incoming := stream;
    }

    /** `recv`: some of the bytes, as the network pleases; none only when there are no more. */
    method Recv(most: nat) returns (chunk: seq<Byte>)
      requires most > 0
      modifies this
      ensures |chunk| <= most && chunk + incoming == old(incoming)
      ensures chunk == [] ==> old(incoming) == []
    {
      if incoming == [] {
        return [];
      }
      var k :| 1 <= k <= most && k <= |incoming|;
      chunk := incoming[..k];
      incoming := incoming[k..];
    }
  }

  class HomeAssistantSocket {
    const sock: Socket

    constructor (sock: Socket)
      ensures this.sock == sock
    {
      this.sock := sock;
    }

    /** _read: exactly `n` bytes over however many chunks, or None for SocketClosed. */
    method Read(n: nat) returns (r: Option<seq<Byte>>)
      modifies sock
      ensures n <= |old(sock.incoming)| ==>
        r == Some(old(sock.incoming)[..n]) && sock.incoming == old(sock.incoming)[n..]
      ensures n > |old(sock.incoming)| ==> r == None && sock.incoming == []
    {
      var out: seq<Byte> := [];
      while |out| < n
        invariant |out| <= n
        invariant out + sock.incoming == old(sock.incoming)
      {
        var chunk := sock.Recv(n - |out|);
        if chunk == [] {
          return None;
        }
        assert out + (chunk + sock.incoming) == old(sock.incoming);
        out := out + chunk;
      }
      assert old(sock.incoming)[..n] == out;
      return Some(out);
    }

    /** The header, length and payload reads at the top of _recv's loop. */
    method NextFrame() returns (r: Option<(Byte, seq<Byte>)>)
      modifies sock
      ensures match ReadFrame(old(sock.incoming))
        case None => r == None
        case Some((b1, payload, rest)) => r == Some((b1, payload)) && sock.incoming == rest
    {
      ghost var stream := sock.incoming;
      var header := Read(2);
      if header.None? {
        return None;
      }
      var b1, b2 := header.value[0], header.value[1];
      var size := b2 % 128;
      var ext := Extended(size);
      if ext > 0 {
        var length := Read(ext);
        if length.None? {
          return None;
        }
        assert length.value == stream[2..2 + ext];
        size := FromBigEndian(length.value);
      }
      assert sock.incoming == stream[2 + ext..];
      var payload := Read(size);
      if payload.None? {
        return None;
      }
      assert payload.value == stream[2 + ext..2 + ext + size];
      return Some((b1, payload.value));
    }

    /** _recv, up to the bytes it hands to `json.loads`; None for SocketClosed. */
    method Recv() returns (r: Option<seq<Byte>>)
      modifies sock
      ensures match RecvFrom(old(sock.incoming), [])
        case SocketClosed => r == None
        case Message(data, rest) => r == Some(data) && sock.incoming == rest
    {
      var data: seq<Byte> := [];
      while true
        invariant RecvFrom(sock.incoming, data) == RecvFrom(old(sock.incoming), [])
        decreases |sock.incoming|
      {
        var next := NextFrame();
        if next.None? {
          return None;
        }
        var (b1, payload) := next.value;
        if b1 % 16 == 0x9 || b1 % 16 == 0xA {
          continue;
        }
        if b1 % 16 == 0x8 {
          return None;
        }
        data := data + payload;
        if b1 >= 128 {
          return Some(data);
        }
      }
    }
  }

  // ---- messages (RFC 6455, section 5.4) -------------------------------------------------

  /** A server's frame: unmasked (section 5.1). */
  predicate FromServer(f: Frame) {
    !f.masked && f.opcode < 16 && |f.payload| < MAX_PAYLOAD
  }

  type ServerFrame = f: Frame | FromServer(f) witness Frame(true, 0x1, false, [])

  function FirstByte(f: ServerFrame): Byte {
    (if f.fin then 128 else 0) + f.opcode
  }

  function EncodeFrame(f: ServerFrame): seq<Byte> {
    [FirstByte(f)] + LengthBytes(|f.payload|, false) + f.payload
  }

  /** Ping or pong: never fragmented, at most 125 bytes (section 5.5). */
  predicate PingOrPong(f: ServerFrame) {
    (f.opcode == 0x9 || f.opcode == 0xA) && f.fin && |f.payload| <= 125
  }

  /** One message in fragments: text or binary first, then continuations, the last one final,
      pings and pongs anywhere before that. */
  predicate OneMessage(frames: seq<ServerFrame>, started: bool) {
    && frames != []
    && if PingOrPong(frames[0]) then OneMessage(frames[1..], started)
      else
        && (if started then frames[0].opcode == 0x0 else frames[0].opcode == 0x1 || frames[0].opcode == 0x2)
        && if frames[0].fin then |frames| == 1 else OneMessage(frames[1..], true)
  }

  /** The fragments' payloads, in order. */
  function Data(frames: seq<ServerFrame>): seq<Byte> {
    if frames == [] then []
    else (if PingOrPong(frames[0]) then [] else frames[0].payload) + Data(frames[1..])
  }

  function EncodeAll(frames: seq<ServerFrame>): seq<Byte>
  {
    if frames == [] then [] else EncodeFrame(frames[0]) + EncodeAll(frames[1..])
  }

  lemma FrameReads(f: ServerFrame, rest: seq<Byte>)
    ensures ReadFrame(EncodeFrame(f) + rest) == Some((FirstByte(f), f.payload, rest))
  {
    var h := [FirstByte(f)] + LengthBytes(|f.payload|, false);
    HeaderReads(FirstByte(f), |f.payload|, false, f.payload + rest);
    assert EncodeFrame(f) + rest == h + (f.payload + rest);
    CutMiddle(h, f.payload, rest);
  }

  /** A server's frames are the standard's: its reader gets the same frame. */
  lemma ServerFrameDecodes(f: ServerFrame, rest: seq<Byte>)
    ensures DecodeFrame(EncodeFrame(f) + rest) == Some((f, rest))
  {
    FrameParses(FirstByte(f), false, [], f.payload, rest);
    var h := [FirstByte(f)] + LengthBytes(|f.payload|, false);
    assert h + [] == h;
  }

  lemma OneMore(frames: seq<ServerFrame>, rest: seq<Byte>)
    requires frames != []
    ensures EncodeAll(frames) + rest == EncodeFrame(frames[0]) + (EncodeAll(frames[1..]) + rest)
  {
  }

  /** What one frame does to _recv's loop. */
  lemma OneStep(f: ServerFrame, tail: seq<Byte>, data: seq<Byte>)
    ensures PingOrPong(f) ==> RecvFrom(EncodeFrame(f) + tail, data) == RecvFrom(tail, data)
    ensures f.opcode in {0x0, 0x1, 0x2} && f.fin ==>
      RecvFrom(EncodeFrame(f) + tail, data) == Message(data + f.payload, tail)
    ensures f.opcode in {0x0, 0x1, 0x2} && !f.fin ==>
      RecvFrom(EncodeFrame(f) + tail, data) == RecvFrom(tail, data + f.payload)
    ensures f.opcode == 0x8 ==> RecvFrom(EncodeFrame(f) + tail, data) == SocketClosed
  {
    FrameReads(f, tail);
  }

  /** The data once the frames are in, kept as _recv keeps it. */
  function DataAfter(frames: seq<ServerFrame>, data: seq<Byte>): seq<Byte> {
    if frames == [] then data
    else DataAfter(frames[1..], if PingOrPong(frames[0]) then data else data + frames[0].payload)
  }

  lemma {:induction false} DataAfterIs(frames: seq<ServerFrame>, data: seq<Byte>)
    ensures DataAfter(frames, data) == data + Data(frames)
  {
    if frames != [] {
      var f := frames[0];
      DataAfterIs(frames[1..], if PingOrPong(f) then data else data + f.payload);
      Regrouped(data, f.payload, Data(frames[1..]));
    }
  }

  lemma Regrouped(a: seq<Byte>, b: seq<Byte>, c: seq<Byte>)
    ensures a + b + c == a + (b + c) && [] + c == c
  {
  }

  lemma {:induction false} FramesAreReceived(frames: seq<ServerFrame>, started: bool, data: seq<Byte>, rest: seq<Byte>)
    requires OneMessage(frames, started)
    ensures RecvFrom(EncodeAll(frames) + rest, data) == Message(DataAfter(frames, data), rest)
  {
    var f, more := frames[0], frames[1..];
    OneMore(frames, rest);
    var tail := EncodeAll(more) + rest;
    OneStep(f, tail, data);
    if PingOrPong(f) {
      FramesAreReceived(more, started, data, rest);
    } else if f.fin {
      assert tail == rest;
    } else {
      FramesAreReceived(more, true, data + f.payload, rest);
    }
  }

  /** Whatever the fragmentation and the pings between, _recv gives the message's data and
      leaves exactly what follows the message. */
  lemma MessageIsReceived(frames: seq<ServerFrame>, rest: seq<Byte>)
    requires OneMessage(frames, false)
    ensures RecvFrom(EncodeAll(frames) + rest, []) == Message(Data(frames), rest)
  {
    FramesAreReceived(frames, false, [], rest);
    DataAfterIs(frames, []);
    assert [] + Data(frames) == Data(frames);
  }

  /** A frame cut short is no frame. */
  lemma CutFrame(f: ServerFrame, k: nat)
    requires k < |EncodeFrame(f)|
    ensures ReadFrame(EncodeFrame(f)[..k]) == None
  {
    var bs, l, cut := EncodeFrame(f), LengthBytes(|f.payload|, false), EncodeFrame(f)[..k];
    HeaderReads(FirstByte(f), |f.payload|, false, f.payload);
    if k >= 2 {
      var ext := Extended(bs[1] % 128);
      assert cut[1] == bs[1] && |bs| == 2 + ext + |f.payload|;
      if k >= 2 + ext { assert cut[2..2 + ext] == bs[2..2 + ext]; }
    }
  }

  /** A message the server never finishes is never handed over, however much of it arrived. */
  lemma {:induction false} PartMessageIsRefused(frames: seq<ServerFrame>, started: bool, data: seq<Byte>, k: nat)
    requires OneMessage(frames, started)
    requires k < |EncodeAll(frames)|
    ensures RecvFrom(EncodeAll(frames)[..k], data) == SocketClosed
  {
    var f, more := frames[0], frames[1..];
    var bs := EncodeFrame(f);
    if k < |bs| {
      assert EncodeAll(frames)[..k] == bs[..k];
      CutFrame(f, k);
    } else {
      var tail := EncodeAll(more)[..k - |bs|];
      assert EncodeAll(frames)[..k] == bs + tail;
      OneStep(f, tail, data);
      PartMessageIsRefused(more, started || !PingOrPong(f), if PingOrPong(f) then data else data + f.payload, k - |bs|);
    }
  }

  /** A close frame between a message's fragments ends the socket, not the message. */
  lemma {:induction false} CloseEndsIt(before: seq<ServerFrame>, close: ServerFrame, data: seq<Byte>, rest: seq<Byte>)
    requires forall f :: f in before ==> PingOrPong(f) || (f.opcode in {0x0, 0x1, 0x2} && !f.fin)
    requires close.opcode == 0x8
    ensures RecvFrom(EncodeAll(before) + (EncodeFrame(close) + rest), data) == SocketClosed
  {
    if before == [] {
      assert EncodeAll(before) + (EncodeFrame(close) + rest) == EncodeFrame(close) + rest;
      OneStep(close, rest, data);
    } else {
      var f, more := before[0], before[1..];
      OneMore(before, EncodeFrame(close) + rest);
      OneStep(f, EncodeAll(more) + (EncodeFrame(close) + rest), data);
      CloseEndsIt(more, close, if PingOrPong(f) then data else data + f.payload, rest);
    }
  }
}

/** The Govee "razer" wire protocol: binary frames with an XOR checksum,
    the Enable and LED-data payloads, and the transport object that sends
    them and applies the keep-alive rule. */
module Packet {
  import opened Common
  import opened Const
  import opened Bits

  const MagicByte: Byte := 0xBB
  const ExtendedSize: Byte := 0x00
  const CmdEnable: Byte := 0xB1
  const CmdLedData: Byte := 0xB0

  /** Largest number of colours whose LED-data payload (2 + 3 per colour)
      still fits the single length byte of a frame. */
  const MaxFrameColors := 84

  // ---------------------------------------------------------------------
  // Checksum

  /** Running XOR of every byte of `s`. */
  function XorFold(s: seq<Byte>): Byte
    decreases |s|
  {
    if |s| == 0 then 0 else XorByte(XorFold(s[..|s| - 1]), s[|s| - 1])
  }

  lemma {:induction false} XorFoldAppend(a: seq<Byte>, b: seq<Byte>)
    ensures XorFold(a + b) == XorByte(XorFold(a), XorFold(b))
    decreases |b|
  {
    if |b| == 0 {
      assert a + b == a;
      XorZero(XorFold(a));
    } else {
      var b' := b[..|b| - 1];
      var x := b[|b| - 1];
      assert (a + b)[..|a + b| - 1] == a + b';
      XorFoldAppend(a, b');
      XorAssoc(XorFold(a), XorFold(b'), x);
    }
  }

  lemma XorFoldSnoc(s: seq<Byte>, x: Byte)
    ensures XorFold(s + [x]) == XorByte(XorFold(s), x)
  {
    assert (s + [x])[..|s|] == s;
  }

  /** The checksum accumulator loop. */
  method Checksum(data: seq<Byte>) returns (chk: Byte)
    ensures chk == XorFold(data)
  {
    chk := 0;
    for i := 0 to |data|
      invariant chk == XorFold(data[..i])
    {
      assert data[..i + 1][..i] == data[..i];
      chk := XorByte(chk, data[i]);
    }
    assert data[..|data|] == data;
  }

  // ---------------------------------------------------------------------
  // Frames

  /** The frame `[magic, ext, len(payload), command, payload..., checksum]`
      where the checksum is the XOR of every byte before it. */
  function Frame(command: Byte, data: seq<Byte>): seq<Byte>
    requires |data| < 256
  {
    var head := [MagicByte, ExtendedSize, |data|, command] + data;
    head + [XorFold(head)]
  }

  lemma FrameLayout(command: Byte, data: seq<Byte>)
    requires |data| < 256
    ensures |Frame(command, data)| == |data| + 5
    ensures Frame(command, data)[0] == MagicByte && Frame(command, data)[1] == ExtendedSize
    ensures Frame(command, data)[2] == |data| && Frame(command, data)[3] == command
    ensures Frame(command, data)[4..|data| + 4] == data
  {
  }

  /** The XOR of a whole frame, checksum included, is zero. */
  lemma FrameXorZero(command: Byte, data: seq<Byte>)
    requires |data| < 256
    ensures XorFold(Frame(command, data)) == 0
  {
    var head := [MagicByte, ExtendedSize, |data|, command] + data;
    XorFoldSnoc(head, XorFold(head));
    XorSelf(XorFold(head));
  }

  /** How a receiver reads a frame: header fields, declared length and a
      zero XOR over the whole frame. */
  function Parse(p: seq<Byte>): Option<(Byte, seq<Byte>)> {
    if |p| >= 5 && p[0] == MagicByte && p[1] == ExtendedSize
       && p[2] == |p| - 5 && XorFold(p) == 0
    then Some((p[3], p[4..|p| - 1]))
    else None
  }

  lemma ParseFrame(command: Byte, data: seq<Byte>)
    requires |data| < 256
    ensures Parse(Frame(command, data)) == Some((command, data))
  {
    FrameXorZero(command, data);
    FrameLayout(command, data);
  }

  /** Every byte sequence the receiver accepts is a frame built by Frame. */
  lemma ParseOnlyFrames(p: seq<Byte>)
    requires Parse(p).Some?
    ensures |Parse(p).value.1| < 256
    ensures p == Frame(Parse(p).value.0, Parse(p).value.1)
  {
    var n := |p|;
    var data := p[4..n - 1];
    var head := [MagicByte, ExtendedSize, |data|, p[3]] + data;
    var last := p[n - 1];
    assert p[..n - 1] == head;
    assert last == XorFold(head) by {
      assert XorFold(p) == XorByte(XorFold(p[..n - 1]), last);
      XorCancel(XorFold(head), last);
    }
    assert p == p[..n - 1] + [last];
  }

  /** `_create_packet`: fails with the ValueError of bytes([...]) when the
      payload length does not fit the length byte. */
  method CreatePacket(command: Byte, data: seq<Byte>) returns (r: Result<seq<Byte>, Fault>)
    ensures |data| < 256 ==> r == Ok(Frame(command, data))
    ensures |data| >= 256 ==> r == Err(ByteOutOfRange)
  {
    if |data| >= 256 {
      return Err(ByteOutOfRange);
    }
    var packet := [MagicByte, ExtendedSize, |data|, command] + data;
    var chk := Checksum(packet);
    return Ok(packet + [chk]);
  }

  // ---------------------------------------------------------------------
  // Payloads

  function EnablePayload(enable: bool): seq<Byte> {
    [if enable then 0x01 else 0x00]
  }

  function EnableFrame(enable: bool): seq<Byte> {
    Frame(CmdEnable, EnablePayload(enable))
  }

  lemma EnableHeaderFold()
    ensures XorFold([MagicByte, ExtendedSize, 1, CmdEnable]) == 0x0B
  {
    var h0: seq<Byte> := [];
    var h1: seq<Byte> := [MagicByte];
    var h2: seq<Byte> := [MagicByte, ExtendedSize];
    var h3: seq<Byte> := [MagicByte, ExtendedSize, 1];
    XorFoldSnoc(h0, MagicByte);
    assert h0 + [MagicByte] == h1;
    XorFoldSnoc(h1, ExtendedSize);
    assert h1 + [ExtendedSize] == h2;
    XorFoldSnoc(h2, 1);
    assert h2 + [1] == h3;
    XorFoldSnoc(h3, CmdEnable);
    assert h3 + [CmdEnable] == [MagicByte, ExtendedSize, 1, CmdEnable];
    XorEnableHeader();
  }

  lemma EnableFrameBytes()
    ensures EnableFrame(true) == [0xBB, 0x00, 0x01, 0xB1, 0x01, 0x0A]
    ensures EnableFrame(false) == [0xBB, 0x00, 0x01, 0xB1, 0x00, 0x0B]
  {
    var h: seq<Byte> := [MagicByte, ExtendedSize, 1, CmdEnable];
    EnableHeaderFold();
    XorFoldSnoc(h, 1);
    XorFoldSnoc(h, 0);
    XorEnableTrailer();
  }

  predicate AllInByteRange(colors: seq<RGB>) {
    forall j :: 0 <= j < |colors| ==> InByteRange(colors[j])
  }

  /** The channel bytes r, g, b of each colour in order. */
  function Channels(colors: seq<RGB>): (bytes: seq<Byte>)
    requires AllInByteRange(colors)
    ensures |bytes| == 3 * |colors|
    decreases |colors|
  {
    if |colors| == 0 then []
    else
      var c := colors[|colors| - 1];
      Channels(colors[..|colors| - 1]) + [c.r, c.g, c.b]
  }

  lemma ChannelsSnoc(colors: seq<RGB>, i: nat)
    requires i < |colors| && AllInByteRange(colors[..i + 1])
    ensures AllInByteRange(colors[..i])
    ensures Channels(colors[..i + 1]) == Channels(colors[..i])
      + [colors[i].r, colors[i].g, colors[i].b]
  {
    assert colors[..i + 1][..i] == colors[..i];
  }

  /** Reads channel bytes back as colours, three at a time. */
  function ColorsOf(bytes: seq<Byte>): seq<RGB>
    requires |bytes| % 3 == 0
    decreases |bytes|
  {
    if |bytes| == 0 then []
    else
      var n := |bytes|;
      ColorsOf(bytes[..n - 3]) + [RGB(bytes[n - 3], bytes[n - 2], bytes[n - 1])]
  }

  lemma {:induction false} ColorsRoundTrip(colors: seq<RGB>)
    requires AllInByteRange(colors)
    ensures ColorsOf(Channels(colors)) == colors
    decreases |colors|
  {
    if |colors| > 0 {
      var init := colors[..|colors| - 1];
      var c := colors[|colors| - 1];
      var bytes := Channels(colors);
      assert bytes[..|bytes| - 3] == Channels(init);
      ColorsRoundTrip(init);
      assert colors == init + [c];
    }
  }

  /** The LED-data payload `[gradient_flag, count, r, g, b, ...]`, or the
      ValueError bytes([...]) raises for a count or channel outside 0..255. */
  function ColorPayload(colors: seq<RGB>, gradientMode: bool): (r: Result<seq<Byte>, Fault>)
    ensures r.Ok? <==> |colors| < 256 && AllInByteRange(colors)
    ensures r.Err? ==> r.error == ByteOutOfRange
    ensures r.Ok? ==>
      && |r.value| == 2 + 3 * |colors|
      && r.value[0] == (if gradientMode then 0x01 else 0x00)
      && r.value[1] == |colors|
      && ColorsOf(r.value[2..]) == colors
  {
    if |colors| < 256 && AllInByteRange(colors) then
      var p := [if gradientMode then 0x01 else 0x00, |colors|] + Channels(colors);
      PayloadColors(colors, p[0]);
      Ok(p)
    else Err(ByteOutOfRange)
  }

  /** The colours after the two header bytes of a payload decode back. */
  lemma PayloadColors(colors: seq<RGB>, flag: Byte)
    requires |colors| < 256 && AllInByteRange(colors)
    ensures ColorsOf(([flag, |colors|] + Channels(colors))[2..]) == colors
  {
    assert ([flag, |colors|] + Channels(colors))[2..] == Channels(colors);
    ColorsRoundTrip(colors);
  }

  /** The LED-data frame send_colors hands to the socket, or the fault that
      building it raises. */
  function LedFrame(colors: seq<RGB>, gradientMode: bool): (r: Result<seq<Byte>, Fault>)
    ensures r.Err? ==> r.error == ByteOutOfRange
    ensures r.Ok? ==>
      && |r.value| == 3 * |colors| + 7
      && r.value[0] == MagicByte && r.value[2] == 2 + 3 * |colors| && r.value[3] == CmdLedData
      && XorFold(r.value) == 0
  {
    match ColorPayload(colors, gradientMode)
    case Err(e) => Err(e)
    case Ok(p) =>
      if |p| < 256 then
        FrameLayout(CmdLedData, p);
        FrameXorZero(CmdLedData, p);
        Ok(Frame(CmdLedData, p))
      else Err(ByteOutOfRange)
  }

  /** A colour frame can be built exactly when there are at most 84 colours
      and every channel is a byte. */
  lemma LedFrameOkIff(colors: seq<RGB>, gradientMode: bool)
    ensures LedFrame(colors, gradientMode).Ok? <==> |colors| <= MaxFrameColors && AllInByteRange(colors)
  {
  }

  /** A built colour frame decodes back to its command, flag, count and colours. */
  lemma LedFrameDecodes(colors: seq<RGB>, gradientMode: bool)
    requires LedFrame(colors, gradientMode).Ok?
    ensures var parsed := Parse(LedFrame(colors, gradientMode).value);
      && parsed.Some? && parsed.value.0 == CmdLedData
      && |parsed.value.1| == 2 + 3 * |colors|
      && parsed.value.1[0] == (if gradientMode then 0x01 else 0x00)
      && parsed.value.1[1] == |colors|
      && ColorsOf(parsed.value.1[2..]) == colors
  {
    var p := ColorPayload(colors, gradientMode).value;
    ParseFrame(CmdLedData, p);
    assert p[2..] == Channels(colors);
    ColorsRoundTrip(colors);
  }

  /** With the 100 LEDs the setup form allows, no colour frame can be built. */
  lemma ConfigMaximumOverflows(colors: seq<RGB>, gradientMode: bool)
    requires |colors| == MaxConfigLeds
    ensures LedFrame(colors, gradientMode) == Err(ByteOutOfRange)
  {
  }

  /** The payload loop of send_colors. */
  method ColorData(colors: seq<RGB>, gradientMode: bool) returns (r: Result<seq<Byte>, Fault>)
    ensures r == ColorPayload(colors, gradientMode)
  {
    if |colors| >= 256 {
      return Err(ByteOutOfRange);
    }
    var head: seq<Byte> := [if gradientMode then 0x01 else 0x00, |colors|];
    var data := head;
    for i := 0 to |colors|
      invariant AllInByteRange(colors[..i])
      invariant data == head + Channels(colors[..i])
    {
      var c := colors[i];
      if !InByteRange(c) {
        return Err(ByteOutOfRange);
      }
      ChannelsSnoc(colors, i);
      data := data + [c.r, c.g, c.b];
    }
    assert colors[..|colors|] == colors;
    return Ok(data);
  }

  // ---------------------------------------------------------------------
  // Keep-alive

  predicate KeepAliveDue(lastEnableTime: real, now: real) {
    now - lastEnableTime > KeepAliveSeconds
  }

  /** The Enable(true) frames a colour send emits before its own frame. */
  function KeepAliveFrames(lastEnableTime: real, now: real, enableDelivered: bool): seq<seq<Byte>> {
    if KeepAliveDue(lastEnableTime, now) && enableDelivered then [EnableFrame(true)] else []
  }

  /** The frames one send_colors call hands successfully to the socket. */
  function ColorSendLog(lastEnableTime: real, now: real, colors: seq<RGB>, gradientMode: bool,
                        enableDelivered: bool, delivered: bool): seq<seq<Byte>> {
    var frame := LedFrame(colors, gradientMode);
    KeepAliveFrames(lastEnableTime, now, enableDelivered)
      + (if frame.Ok? && delivered then [frame.value] else [])
  }

  /** A colour send starts with an Enable frame exactly when the keep-alive
      was due and that Enable reached the socket; the colour frame is last. */
  lemma ColorSendLogShape(lastEnableTime: real, now: real, colors: seq<RGB>, gradientMode: bool,
                          enableDelivered: bool, delivered: bool)
    ensures var log := ColorSendLog(lastEnableTime, now, colors, gradientMode, enableDelivered, delivered);
      && (|log| > 0 && log[0] == EnableFrame(true)
          <==> KeepAliveDue(lastEnableTime, now) && enableDelivered)
      && (LedFrame(colors, gradientMode).Ok? ==>
            (delivered <==> |log| > 0 && log[|log| - 1] == LedFrame(colors, gradientMode).value))
      && (LedFrame(colors, gradientMode).Err? ==> |log| <= 1)
  {
    var frame := LedFrame(colors, gradientMode);
    if frame.Ok? {
      var p := ColorPayload(colors, gradientMode).value;
      FrameLayout(CmdLedData, p);
      FrameLayout(CmdEnable, EnablePayload(true));
      assert frame.value[3] != EnableFrame(true)[3];
    }
  }

  // ---------------------------------------------------------------------
  // Transport

  /** GoveeProtocol: the UDP endpoint and the time of the last Enable that
      reached the socket. `sent` records, in order, every frame the socket
      accepted; whether a send succeeds is an input of each operation. */
  class GoveeProtocol {
    const host: string
    const port: int
    var lastEnableTime: real
    ghost var sent: seq<seq<Byte>>

    constructor (host: string, port: int)
      ensures this.host == host && this.port == port
      ensures lastEnableTime == 0.0 && sent == []
    {
      this.host := host;
      this.port := port;
      lastEnableTime := 0.0;
      sent := [];
    }

    /** send_enable: a failed send is logged and swallowed, and then the
        timestamp is not refreshed. */
    method SendEnable(enable: bool, now: real, delivered: bool)
      modifies this
      ensures sent == old(sent) + (if delivered then [EnableFrame(enable)] else [])
      ensures lastEnableTime == if delivered then now else old(lastEnableTime)
    {
      var packet := CreatePacket(CmdEnable, [if enable then 0x01 else 0x00]);
      if delivered {
        sent := sent + [packet.value];
        lastEnableTime := now;
      }
    }

    /** send_colors: keep-alive first, then the LED-data frame. Building the
        frame may raise after the keep-alive Enable went out; the socket
        failure of the frame itself is swallowed. `numLeds` is unused. */
    method SendColors(colors: seq<RGB>, numLeds: int, gradientMode: bool, now: real,
                      enableDelivered: bool, delivered: bool) returns (outcome: Outcome)
      modifies this
      ensures lastEnableTime ==
        if KeepAliveDue(old(lastEnableTime), now) && enableDelivered then now else old(lastEnableTime)
      ensures sent == old(sent)
        + ColorSendLog(old(lastEnableTime), now, colors, gradientMode, enableDelivered, delivered)
      ensures outcome == if LedFrame(colors, gradientMode).Ok? then Pass
                         else Fail(LedFrame(colors, gradientMode).error)
    {
      ghost var sent0 := sent;
      ghost var last0 := lastEnableTime;
      if now - lastEnableTime > KeepAliveSeconds {
        SendEnable(true, now, enableDelivered);
      }
      assert sent == sent0 + KeepAliveFrames(last0, now, enableDelivered);
      var data := ColorData(colors, gradientMode);
      if data.Err? {
        assert LedFrame(colors, gradientMode) == Err(data.error);
        return Fail(data.error);
      }
      var packet := CreatePacket(CmdLedData, data.value);
      assert LedFrame(colors, gradientMode) == packet;
      if packet.Err? {
        return Fail(packet.error);
      }
      if delivered {
        sent := sent + [packet.value];
      }
      return Pass;
    }
  }
}

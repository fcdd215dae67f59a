/**
 The QMAP framing of the Fibocom WWAN driver (qmi_wwan_f.c): what `add_qhdr` and
 `add_qhdr_v5` put in front of an IP packet, and how the two receive paths read an
 aggregate of such frames.
 */
module QmapFrame {
  import opened Bytes

  const MUX_ID_BASE := 0x81      // FIBOCOM_QMAP_MUX_ID
  const MAX_IP_LEN := 1500
  const DEVICES := 4             // FIBOCOM_WWAN_QMAP

  datatype Proto = IPv4 | IPv6

  /** One slot of `mpQmapNetDev`: the destination address its frames get, if registered. */
  datatype NetDev = NetDev(mac: seq<byte>)

  /** The part of sQmiWwanQmap that the receivers consult. */
  datatype Mux = Mux(mode: nat, devs: seq<Option<NetDev>>) {
    predicate Valid() {
      && |devs| == DEVICES
      && mode <= DEVICES
      && forall i | 0 <= i < DEVICES :: devs[i].Some? ==> |devs[i].value.mac| == 6
    }

    predicate Registered(dev: int)
      requires Valid()
    {
      0 <= dev < mode && devs[dev].Some?
    }
  }

  /** An IP packet together with the multiplexed device it belongs to. */
  datatype Packet = Packet(dev: nat, proto: Proto, payload: seq<byte>)

  /**
   How a receiver judges the frame at the head of the buffer. `len` is the C `skb_len`,
   which is signed: it is negative when the header announces more padding than data.
   */
  datatype Head =
    | Reject
    | Skip(adv: nat)
    | Ip(dev: nat, proto: Proto, hdr: nat, len: int, adv: nat)

  /** The IP version named by the first nibble of a payload. */
  function ProtoOf(first: byte): Option<Proto> {
    if first / 16 == 4 then Some(IPv4)
    else if first / 16 == 6 then Some(IPv6)
    else None
  }

  /** The two receivers: `qmap_qmi_wwan_rx_fixup` and `_rmnet_usb_rx_handler`. */
  datatype Dialect =
    | Legacy
    | Rmnet(minPadding: nat, beyond: byte)  // `beyond` is the byte stored just behind the aggregate

  predicate HasExtension(s: seq<byte>)
    requires |s| > 4
  {
    s[0] / 64 % 2 == 1
  }

  function HeaderSize(d: Dialect, s: seq<byte>): nat
    requires |s| > 4
  {
    if d.Rmnet? && HasExtension(s) then 8 else 4
  }

  function SkbLen(d: Dialect, s: seq<byte>): int
    requires |s| > 4
  {
    U16(s[2], s[3]) - s[0] % 64 - (if d.Rmnet? then d.minPadding else 0)
  }

  /** The checks of one loop iteration of either receiver, in the order of the source. */
  function ReadHead(d: Dialect, m: Mux, s: seq<byte>): (h: Head)
    requires m.Valid() && |s| > 4
    ensures !h.Reject? ==> 4 <= h.adv <= |s|
    ensures h.Ip? ==> m.Registered(h.dev) && h.hdr == HeaderSize(d, s)
    // header, payload and padding account for every byte the frame takes
    ensures h.Ip? ==> h.adv == h.hdr + h.len + s[0] % 64 + (if d.Rmnet? then d.minPadding else 0)
  {
    var pktLen := U16(s[2], s[3]);
    var hdr := HeaderSize(d, s);
    var skbLen := SkbLen(d, s);
    if skbLen > MAX_IP_LEN then Reject
    else if |s| < pktLen + hdr then Reject
    else if s[0] >= 128 then Skip(pktLen + hdr)
    else
      var first := if hdr < |s| then s[hdr] else if d.Rmnet? then d.beyond else 0;
      match ProtoOf(first)
      case None => Reject
      case Some(proto) =>
        var dev := s[1] - MUX_ID_BASE;
        if dev < 0 || dev >= m.mode then Reject
        else if m.devs[dev].None? then Skip(pktLen + hdr)
        else Ip(dev, proto, hdr, skbLen, pktLen + hdr)
  }

  /**
   The judgement in the fields of the frame: a data frame that is short enough and complete, names an
   IP version, and is for a multiplexed device, is taken if the device is registered.
   */
  lemma HeadFields(d: Dialect, m: Mux, s: seq<byte>)
    requires m.Valid() && |s| > 4
    ensures
      var h, total, pad := ReadHead(d, m, s), U16(s[2], s[3]), s[0] % 64 + (if d.Rmnet? then d.minPadding else 0);
      var hdr := if d.Rmnet? && 64 <= s[0] % 128 then 8 else 4;
      var version := (if hdr < |s| then s[hdr] else if d.Rmnet? then d.beyond else 0) / 16;
      var whole := total - pad <= 1500 && hdr + total <= |s|;
      var known := s[0] < 128 && version in {4, 6} && 0x81 <= s[1] < 0x81 + m.mode;
      && (h.Reject? <==> !whole || (s[0] < 128 && !known))
      && (h.Ip? <==> whole && known && m.devs[s[1] - 0x81].Some?)
      && (!h.Reject? ==> h.adv == hdr + total)
      && (h.Ip? ==> h.dev == s[1] - 0x81 && h.hdr == hdr && h.len == total - pad && (h.proto == IPv4 <==> version == 4))
  {
    ExtensionBit(s);
    hide U16, HasExtension;
  }

  lemma ExtensionBit(s: seq<byte>)
    requires |s| > 4
    ensures HasExtension(s) <==> 64 <= s[0] % 128
  {
  }

  /** Why a receiver left its loop. */
  datatype Stop = Done | Rejected | IllPadded

  datatype Parse = Parse(packets: seq<Packet>, stop: Stop)

  /**
   What a copying parser makes of an aggregate. It stops at a frame whose padding exceeds its
   length, for which the C code computes a negative payload length.
   */
  function Split(d: Dialect, m: Mux, s: seq<byte>): Parse
    requires m.Valid()
  {
    if |s| <= 4 then Parse([], Done)
    else
      match ReadHead(d, m, s)
      case Reject => Parse([], Rejected)
      case Skip(adv) => Split(d, m, s[adv..])
      case Ip(dev, proto, hdr, len, adv) =>
        if len < 0 then Parse([], IllPadded)
        else
          var rest := Split(d, m, s[adv..]);
          Parse([Packet(dev, proto, s[hdr..hdr + len])] + rest.packets, rest.stop)
  }

  /** The packets `done` are parsed, and what the rest of the input holds completes `ref`. */
  ghost predicate Remains(d: Dialect, m: Mux, ref: Parse, done: seq<Packet>, rest: seq<byte>)
    requires m.Valid()
  {
    var r := Split(d, m, rest);
    ref == Parse(done + r.packets, r.stop)
  }

  /** The packet of the frame at the head of `s`. */
  function NextPacket(d: Dialect, m: Mux, s: seq<byte>): Packet
    requires m.Valid() && |s| > 4
    requires var h := ReadHead(d, m, s); h.Ip? && h.len >= 0
  {
    var h := ReadHead(d, m, s);
    Packet(h.dev, h.proto, s[h.hdr..h.hdr + h.len])
  }

  lemma RemainsAll(d: Dialect, m: Mux, s: seq<byte>)
    requires m.Valid()
    ensures Remains(d, m, Split(d, m, s), [], s)
  {
  }

  lemma RemainsSkip(d: Dialect, m: Mux, ref: Parse, done: seq<Packet>, s: seq<byte>)
    requires m.Valid() && |s| > 4 && Remains(d, m, ref, done, s) && ReadHead(d, m, s).Skip?
    ensures Remains(d, m, ref, done, s[ReadHead(d, m, s).adv..])
  {
    hide ReadHead;
  }

  lemma RemainsIp(d: Dialect, m: Mux, ref: Parse, done: seq<Packet>, s: seq<byte>)
    requires m.Valid() && |s| > 4 && Remains(d, m, ref, done, s)
    requires var h := ReadHead(d, m, s); h.Ip? && h.len >= 0
    ensures Remains(d, m, ref, done + [NextPacket(d, m, s)], s[ReadHead(d, m, s).adv..])
  {
    hide ReadHead;
    var r := Split(d, m, s[ReadHead(d, m, s).adv..]);
    assert done + ([NextPacket(d, m, s)] + r.packets) == (done + [NextPacket(d, m, s)]) + r.packets;
  }

  /** What is left of `ref` when the parser stops in front of `s`. */
  lemma RemainsEnd(d: Dialect, m: Mux, ref: Parse, done: seq<Packet>, s: seq<byte>)
    requires m.Valid() && Remains(d, m, ref, done, s)
    ensures |done| <= |ref.packets| && done == ref.packets[..|done|]
    ensures |s| <= 4 ==> ref == Parse(done, Done)
    ensures |s| > 4 && ReadHead(d, m, s).Reject? ==> ref == Parse(done, Rejected)
    ensures |s| > 4 && ReadHead(d, m, s).Ip? && ReadHead(d, m, s).len < 0 ==> ref == Parse(done, IllPadded)
    ensures |s| > 4 && ReadHead(d, m, s).Ip? && ReadHead(d, m, s).len >= 0 ==> |done| < |ref.packets|
  {
    hide ReadHead;
  }

  // ---------------------------------------------------------------------------------------
  // Framing

  /** The padding that brings `n` to a multiple of four, or none when the tailroom is too small. */
  function PadFor(n: nat, tailroom: nat): (pad: nat)
    ensures pad < 4
    ensures pad <= tailroom
    ensures 3 <= tailroom ==> (n + pad) % 4 == 0
  {
    var pad := if n % 4 == 0 then 0 else 4 - n % 4;
    if tailroom < pad then 0 else pad
  }

  /**
   An IP packet handed to a multiplexed device for transmission: `ext` chooses the QMAP v5
   header (`add_qhdr_v5`), and `tail` is the unused, uninitialised space behind the packet,
   whose first bytes become the padding.
   */
  datatype Outgoing = Outgoing(dev: nat, payload: seq<byte>, ext: bool, tail: seq<byte>) {
    predicate Fits() {
      dev < DEVICES && |payload| <= MAX_IP_LEN
    }
  }

  /** The header for `n` bytes of payload and padding, of which `pad` are padding. */
  function Header(dev: nat, ext: bool, n: nat, pad: nat): seq<byte>
    requires dev < DEVICES && n < 0x1_0000 && pad < 4
  {
    if ext then [64 + pad, MUX_ID_BASE + dev, n / 256, n % 256, 4, 0, 0, 0]
    else [pad, MUX_ID_BASE + dev, n / 256, n % 256]
  }

  /** The bytes that `add_qhdr` / `add_qhdr_v5` turn an outgoing packet into. */
  function Frame(o: Outgoing): (f: seq<byte>)
    requires o.Fits()
  {
    var pad := PadFor(|o.payload|, |o.tail|);
    Header(o.dev, o.ext, |o.payload| + pad, pad) + (o.payload + o.tail[..pad])
  }

  /** What the driver may be asked to transmit: a non-empty IP packet for a registered device. */
  predicate Sendable(m: Mux, o: Outgoing)
    requires m.Valid()
  {
    && o.Fits()
    && m.Registered(o.dev)
    && o.payload != []
    && ProtoOf(o.payload[0]).Some?
  }

  function PacketOf(m: Mux, o: Outgoing): Packet
    requires m.Valid() && Sendable(m, o)
  {
    Packet(o.dev, ProtoOf(o.payload[0]).value, o.payload)
  }

  predicate AllSendable(m: Mux, os: seq<Outgoing>)
    requires m.Valid()
  {
    forall i | 0 <= i < |os| :: Sendable(m, os[i])
  }

  function Frames(m: Mux, os: seq<Outgoing>): seq<seq<byte>>
    requires m.Valid() && AllSendable(m, os)
  {
    if os == [] then [] else [Frame(os[0])] + Frames(m, os[1..])
  }

  function Packets(m: Mux, os: seq<Outgoing>): seq<Packet>
    requires m.Valid() && AllSendable(m, os)
  {
    if os == [] then [] else [PacketOf(m, os[0])] + Packets(m, os[1..])
  }

  /** Where the fields of a frame end up in a buffer that starts with it. */
  lemma FrameFields(o: Outgoing, rest: seq<byte>)
    requires o.Fits()
    ensures
      var s, pad := Frame(o) + rest, PadFor(|o.payload|, |o.tail|);
      var hdr := if o.ext then 8 else 4;
      && |Frame(o)| == hdr + |o.payload| + pad
      && s[0] == pad + (if o.ext then 64 else 0)
      && s[1] == MUX_ID_BASE + o.dev
      && U16(s[2], s[3]) == |o.payload| + pad
      && (o.ext ==> s[4..8] == [4, 0, 0, 0])
      && s[hdr..hdr + |o.payload|] == o.payload
  {
    var s, pad := Frame(o) + rest, PadFor(|o.payload|, |o.tail|);
    var hdr := if o.ext then 8 else 4;
    assert s == s[..hdr] + (o.payload + (o.tail[..pad] + rest));
    if o.ext {
      assert s[4] == 4 && s[5] == s[6] == s[7] == 0;
    }
  }

  /** The head of a buffer that starts with a frame reads back that frame's packet. */
  lemma HeadOfFrame(d: Dialect, m: Mux, o: Outgoing, rest: seq<byte>)
    requires m.Valid() && Sendable(m, o)
    requires d.Legacy? ==> !o.ext
    ensures |Frame(o) + rest| > 4
    ensures
      var n := |o.payload| - (if d.Rmnet? then d.minPadding else 0);
      ReadHead(d, m, Frame(o) + rest)
      == Ip(o.dev, ProtoOf(o.payload[0]).value, if o.ext then 8 else 4, n, |Frame(o)|)
    ensures
      var hdr := if o.ext then 8 else 4;
      hdr + |o.payload| <= |Frame(o)| && (Frame(o) + rest)[hdr..hdr + |o.payload|] == o.payload
  {
    hide Frame;
    FrameFields(o, rest);
    var s, hdr := Frame(o) + rest, if o.ext then 8 else 4;
    assert s[hdr] == s[hdr..hdr + |o.payload|][0];
  }

  /**
   Aggregate, then split: de-aggregating any concatenation of frames gives back the original
   packets, devices and order, whether or not the tailroom allowed padding.
   */
  lemma {:induction false} SplitOfAggregate(d: Dialect, m: Mux, os: seq<Outgoing>)
    requires m.Valid() && AllSendable(m, os)
    requires d.Legacy? ==> forall i | 0 <= i < |os| :: !os[i].ext
    requires d.Rmnet? ==> d.minPadding == 0
    ensures Split(d, m, Flatten(Frames(m, os))) == Parse(Packets(m, os), Done)
  {
    hide ReadHead, Frame;
    if os != [] {
      var o, tl := os[0], os[1..];
      var rest := Flatten(Frames(m, tl));
      var s := Flatten(Frames(m, os));
      assert s == Frame(o) + rest;
      HeadOfFrame(d, m, o, rest);
      assert s[|Frame(o)|..] == rest;
      SplitOfAggregate(d, m, tl);
    }
  }

  /**
   A configured downlink padding breaks the round trip for every non-empty aggregate: the first
   packet comes back shorter, or the parser meets a negative length.
   */
  lemma RoundTripNeedsNoMinimumPadding(m: Mux, os: seq<Outgoing>, minPadding: nat, beyond: byte)
    requires m.Valid() && AllSendable(m, os)
    ensures Split(Rmnet(minPadding, beyond), m, Flatten(Frames(m, os))) == Parse(Packets(m, os), Done)
            <==> (os == [] || minPadding == 0)
  {
    hide ReadHead, Frame;
    var d := Rmnet(minPadding, beyond);
    if os == [] || minPadding == 0 {
      if minPadding == 0 {
        SplitOfAggregate(d, m, os);
      }
    } else {
      var s := Flatten(Frames(m, os));
      var rest := Flatten(Frames(m, os)[1..]);
      assert s == Frame(os[0]) + rest;
      HeadOfFrame(d, m, os[0], rest);
      var p := Split(d, m, s);
      if p.stop != IllPadded {
        assert |p.packets[0].payload| == |os[0].payload| - minPadding;
        assert Packets(m, os)[0].payload == os[0].payload;
      }
    }
  }

  /** No frame that the parser reaches carries the extension header bit. */
  predicate NoExtension(m: Mux, s: seq<byte>)
    requires m.Valid()
  {
    |s| > 4 ==>
      && !HasExtension(s)
      && var h := ReadHead(Legacy, m, s);
         (!h.Reject? && !(h.Ip? && h.len < 0) ==> NoExtension(m, s[h.adv..]))
  }

  /**
   Both receivers agree on aggregates without extension headers: the same packets in the same
   order, and the same reason for stopping, errors included.
   */
  lemma {:induction false} ReceiversAgree(m: Mux, s: seq<byte>, beyond: byte)
    requires m.Valid() && NoExtension(m, s)
    ensures Split(Legacy, m, s) == Split(Rmnet(0, beyond), m, s)
  {
    if |s| > 4 {
      var h := ReadHead(Legacy, m, s);
      assert h == ReadHead(Rmnet(0, beyond), m, s);
      if !h.Reject? && !(h.Ip? && h.len < 0) {
        ReceiversAgree(m, s[h.adv..], beyond);
      }
    }
  }
}

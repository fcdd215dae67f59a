/** The framing functions of the driver, on a socket buffer that they grow at both ends. */
module QmapSkb {
  import opened Bytes
  import opened QmapFrame

  /** A socket buffer: the packet is `buf[data..tail]`, between its headroom and its tailroom. */
  class Skb {
    const buf: array<byte>
    var data: nat
    var tail: nat

    ghost predicate Valid()
      reads this
    {
      data <= tail <= buf.Length
    }

    ghost function Packet(): seq<byte>
      requires Valid()
      reads this, buf
    {
      buf[data..tail]
    }

    ghost function Tailroom(): seq<byte>
      requires Valid()
      reads this, buf
    {
      buf[tail..]
    }

    constructor (storage: array<byte>, headroom: nat, len: nat)
      requires headroom + len <= storage.Length
      ensures Valid() && buf == storage && Packet() == storage[headroom..headroom + len]
    {
      buf, data, tail := storage, headroom, headroom + len;
    }

    /** Grows the packet to a multiple of four with whatever the tailroom holds, if there is room. */
    method Pad() returns (pad: nat)
      requires Valid()
      modifies this
      ensures Valid() && data == old(data) && pad == PadFor(|old(Packet())|, |old(Tailroom())|)
      ensures Packet() == old(Packet()) + old(Tailroom())[..pad]
    {
      pad := (tail - data) % 4;
      if pad != 0 {
        pad := 4 - pad;
        if buf.Length - tail < pad {
          pad := 0;
        }
        tail := tail + pad;
      }
      assert buf[data..tail] == buf[data..old(tail)] + buf[old(tail)..tail];
      assert buf[old(tail)..tail] == buf[old(tail)..][..pad];
    }

    /** `skb_push`, and the fields of the header written into the space it opens. */
    method Push(header: seq<byte>)
      requires Valid() && |header| <= data
      modifies this, buf
      ensures Valid() && Packet() == header + old(Packet())
    {
      data := data - |header|;
      forall i | 0 <= i < |header| {
        buf[data + i] := header[i];
      }
      assert forall i | 0 <= i < |header| :: Packet()[i] == header[i];
    }

    /** `add_qhdr`: pads the packet and puts the four-byte QMAP header in front of it. */
    method AddQhdr(dev: nat)
      requires Valid() && 4 <= data && tail - data <= MAX_IP_LEN && dev < DEVICES
      modifies this, buf
      ensures Valid() && Packet() == Frame(Outgoing(dev, old(Packet()), false, old(Tailroom())))
    {
      var pad := Pad();
      var pktLen := tail - data;
      Push([pad, MUX_ID_BASE + dev, pktLen / 256, pktLen % 256]);
    }

    /**
     `add_qhdr_v5`: the same padding, and an eight-byte header whose second half announces
     checksum offload without asking for it.
     */
    method AddQhdrV5(dev: nat)
      requires Valid() && 8 <= data && tail - data <= MAX_IP_LEN && dev < DEVICES
      modifies this, buf
      ensures Valid() && Packet() == Frame(Outgoing(dev, old(Packet()), true, old(Tailroom())))
    {
      var mapDatalen := tail - data;
      var padding := Pad();
      var pktLen := mapDatalen + padding;
      Push([64 + padding, MUX_ID_BASE + dev, pktLen / 256, pktLen % 256, 4, 0, 0, 0]);
    }
  }
}

/**
 The two receive paths of the Fibocom WWAN driver. The legacy one (`qmap_qmi_wwan_rx_fixup`)
 splits an aggregate in place: where the running headroom allows it, a packet becomes a clone
 that shares the receive buffer, and a 14-byte Ethernet header is written in front of its
 payload, over bytes of the very buffer that is still being parsed.
 */
module QmapRx {
  import opened Bytes
  import opened QmapFrame

  const ETH_HLEN := 14

  /** The Ethernet header given to a received packet. */
  function EthHeader(mac: seq<byte>, proto: Proto): (h: seq<byte>)
    requires |mac| == 6
    ensures |h| == ETH_HLEN
  {
    mac + [0x02, 0x50, 0xf3, 0, 0, 0] + (if proto == IPv4 then [0x08, 0x00] else [0x86, 0xdd])
  }

  /** What the network stack is given: a device and the bytes of an Ethernet frame. */
  datatype Delivery = Delivery(dev: nat, bytes: seq<byte>)

  function Ethernet(m: Mux, p: Packet): Delivery
    requires m.Valid() && m.Registered(p.dev)
  {
    Delivery(p.dev, EthHeader(m.devs[p.dev].value.mac, p.proto) + p.payload)
  }

  /** A frame for a registered device: its address, that of the sender, and the EtherType of the IP version behind. */
  predicate EtherFrame(m: Mux, f: Delivery)
    requires m.Valid()
  {
    && m.Registered(f.dev) && |f.bytes| >= 14
    && f.bytes[..6] == m.devs[f.dev].value.mac && f.bytes[6..12] == [0x02, 0x50, 0xf3, 0, 0, 0]
    && (|f.bytes| > 14 ==>
          || (f.bytes[14] / 16 == 4 && U16(f.bytes[12], f.bytes[13]) == 0x0800)
          || (f.bytes[14] / 16 == 6 && U16(f.bytes[12], f.bytes[13]) == 0x86dd))
  }

  /** The protocol of a packet is the IP version that its payload names. */
  predicate ProtoNamed(p: Packet) {
    p.payload != [] ==> ProtoOf(p.payload[0]) == Some(p.proto)
  }

  lemma EthernetFields(m: Mux, p: Packet)
    requires m.Valid() && m.Registered(p.dev) && ProtoNamed(p)
    ensures EtherFrame(m, Ethernet(m, p)) && Ethernet(m, p).bytes[14..] == p.payload
  {
    var f := Ethernet(m, p).bytes;
    assert f == EthHeader(m.devs[p.dev].value.mac, p.proto) + p.payload;
    assert f[..6] == m.devs[p.dev].value.mac;
    assert f[6..12] == [0x02, 0x50, 0xf3, 0, 0, 0];
  }

  /** The first byte behind the header decides the protocol. */
  lemma HeadProto(d: Dialect, m: Mux, s: seq<byte>)
    requires m.Valid() && |s| > 4
    ensures
      var h := ReadHead(d, m, s);
      h.Ip? && h.len > 0 ==> h.hdr < |s| && ProtoOf(s[h.hdr]) == Some(h.proto)
  {
  }

  lemma NextNamed(d: Dialect, m: Mux, s: seq<byte>)
    requires m.Valid() && |s| > 4
    requires var h := ReadHead(d, m, s); h.Ip? && h.len >= 0
    ensures ProtoNamed(NextPacket(d, m, s))
  {
    HeadProto(d, m, s);
    hide QmapFrame.ReadHead, QmapFrame.ProtoOf;
  }

  /** So it is for every packet of a parse. */
  lemma {:induction false} SplitNamed(d: Dialect, m: Mux, s: seq<byte>)
    requires m.Valid()
    ensures forall p | p in Split(d, m, s).packets :: ProtoNamed(p)
  {
    hide QmapFrame.ReadHead, ProtoNamed;
    if |s| > 4 {
      var h := ReadHead(d, m, s);
      if !h.Reject? && !(h.Ip? && h.len < 0) {
        SplitNamed(d, m, s[h.adv..]);
        if h.Ip? {
          NextNamed(d, m, s);
        }
      }
    }
  }

  predicate AllRegistered(m: Mux, packets: seq<Packet>)
    requires m.Valid()
  {
    forall i | 0 <= i < |packets| :: m.Registered(packets[i].dev)
  }

  function Ethernets(m: Mux, packets: seq<Packet>): (r: seq<Delivery>)
    requires m.Valid() && AllRegistered(m, packets)
    ensures |r| == |packets|
  {
    if packets == [] then [] else Ethernets(m, packets[..|packets| - 1]) + [Ethernet(m, packets[|packets| - 1])]
  }

  lemma {:induction false} EthernetsAt(m: Mux, packets: seq<Packet>, k: nat)
    requires m.Valid() && AllRegistered(m, packets) && k < |packets|
    ensures Ethernets(m, packets)[k] == Ethernet(m, packets[k])
  {
    var n := |packets| - 1;
    if k < n {
      EthernetsAt(m, packets[..n], k);
    }
  }

  lemma EthernetsSnoc(m: Mux, packets: seq<Packet>, p: Packet)
    requires m.Valid() && AllRegistered(m, packets) && m.Registered(p.dev)
    ensures AllRegistered(m, packets + [p]) && Ethernets(m, packets + [p]) == Ethernets(m, packets) + [Ethernet(m, p)]
  {
    assert (packets + [p])[..|packets|] == packets;
  }

  lemma {:induction false} SplitRegistered(d: Dialect, m: Mux, s: seq<byte>)
    requires m.Valid()
    ensures AllRegistered(m, Split(d, m, s).packets)
  {
    if |s| > 4 {
      var h := ReadHead(d, m, s);
      if !h.Reject? && !(h.Ip? && h.len < 0) {
        SplitRegistered(d, m, s[h.adv..]);
      }
    }
  }

  // ---------------------------------------------------------------------------------------
  // What the legacy receiver does with the bytes of one buffer

  /** Why the legacy receiver left its loop. */
  datatype Stopped = Finished | Refused | NoMemory | Crashed

  /** A frame that is queued: where it starts, what its header says, and whether its packet is a clone. */
  datatype Taken = Taken(at: nat, head: Head, shared: bool) {
    /** The frame announces no more padding than it has data. */
    predicate WellPadded() {
      head.Ip? && head.len >= 0
    }

    /** The payload length of the packet: `skb_trim` ignores a request to grow a clone. */
    function Length(end: nat): nat
      requires at + 4 <= end
    {
      if WellPadded() then head.len else end - at - 4
    }

    /** What the receiver takes for the headroom of the frame behind this one: read before the header is written. */
    function Headroom(s: seq<byte>): nat
      requires at < |s| && head.Ip? && head.adv >= 4
    {
      if shared then s[at] % 64 else head.adv - 4
    }
  }

  datatype Trace = Trace(taken: seq<Taken>, stop: Stopped)

  predicate Sound(m: Mux, s: seq<byte>, end: nat, t: Taken)
    requires m.Valid() && end <= |s|
  {
    && t.at + 4 < end && t.head == ReadHead(Legacy, m, s[t.at..end]) && t.head.Ip?
    && (if t.shared then t.at >= 10 else t.WellPadded())
  }

  predicate AllSound(m: Mux, s: seq<byte>, end: nat, ts: seq<Taken>)
    requires m.Valid() && end <= |s|
  {
    forall k | 0 <= k < |ts| :: Sound(m, s, end, ts[k])
  }

  /** Enough room in front of the frame for the header of a clone. */
  predicate Room(p: nat, headroom: nat) {
    headroom >= ETH_HLEN ==> p >= 10
  }

  /**
   The frames that are queued from `p` on, of the input `s[..end]` as it arrived; `left` more
   allocations succeed. A negative payload length crashes the copying branch, in `memcpy`, while
   the cloning branch goes on behind the frame.
   */
  function Follow(m: Mux, s: seq<byte>, end: nat, p: nat, headroom: nat, left: nat): (tr: Trace)
    requires m.Valid() && p <= end <= |s| && Room(p, headroom)
    ensures AllSound(m, s, end, tr.taken) && |tr.taken| <= left
    ensures forall k | 0 <= k < |tr.taken| :: p <= tr.taken[k].at
    decreases end - p
  {
    if end - p <= 4 then Trace([], Finished)
    else
      match ReadHead(Legacy, m, s[p..end])
      case Reject => Trace([], Refused)
      case Skip(adv) => Follow(m, s, end, p + adv, headroom, left)
      case Ip(dev, proto, hdr, len, adv) =>
        if left == 0 then Trace([], NoMemory)
        else if headroom < ETH_HLEN && len < 0 then Trace([], Crashed)
        else
          var t := Taken(p, ReadHead(Legacy, m, s[p..end]), headroom >= ETH_HLEN);
          var rest := Follow(m, s, end, p + adv, t.Headroom(s), left - 1);
          Trace([t] + rest.taken, rest.stop)
  }

  /** The header that is written for a frame. */
  function HeaderOf(m: Mux, t: Taken): (h: seq<byte>)
    requires m.Valid() && t.head.Ip? && m.Registered(t.head.dev)
    ensures |h| == ETH_HLEN
  {
    EthHeader(m.devs[t.head.dev].value.mac, t.head.proto)
  }

  /** The buffer when the headers of `ts` have been written, one after the other. */
  function Written(m: Mux, s: seq<byte>, end: nat, ts: seq<Taken>): (w: seq<byte>)
    requires m.Valid() && end <= |s| && AllSound(m, s, end, ts)
    ensures |w| == |s|
  {
    if ts == [] then s
    else
      var n := |ts| - 1;
      var t, w := ts[n], Written(m, s, end, ts[..n]);
      if t.shared then Overwrite(w, t.at - 10, HeaderOf(m, t)) else w
  }

  /** What the packet of a queued frame holds when the buffer is `w`. */
  function Render(m: Mux, s: seq<byte>, w: seq<byte>, end: nat, t: Taken): Delivery
    requires m.Valid() && end <= |s| == |w| && Sound(m, s, end, t)
  {
    if t.shared then Delivery(t.head.dev, w[t.at - 10..t.at + 4 + t.Length(end)])
    else Delivery(t.head.dev, HeaderOf(m, t) + s[t.at + 4..t.at + 4 + t.head.len])
  }

  function Renders(m: Mux, s: seq<byte>, w: seq<byte>, end: nat, ts: seq<Taken>): (r: seq<Delivery>)
    requires m.Valid() && end <= |s| == |w| && AllSound(m, s, end, ts)
    ensures |r| == |ts| && forall k | 0 <= k < |ts| :: r[k] == Render(m, s, w, end, ts[k])
  {
    if ts == [] then []
    else Renders(m, s, w, end, ts[..|ts| - 1]) + [Render(m, s, w, end, ts[|ts| - 1])]
  }

  /** The whole of what one buffer does: `count` bytes at `start`, in front of which is headroom. */
  function FollowAll(m: Mux, s: seq<byte>, start: nat, count: nat, allocs: nat): (tr: Trace)
    requires m.Valid() && start + count <= |s|
    ensures AllSound(m, s, start + count, tr.taken)
    ensures forall k | 0 <= k < |tr.taken| :: start <= tr.taken[k].at
  {
    Follow(m, s, start + count, start, start, allocs)
  }

  /** The packets of `ts` when all their headers have been written. */
  function Results(m: Mux, s: seq<byte>, end: nat, ts: seq<Taken>): (r: seq<Delivery>)
    requires m.Valid() && end <= |s| && AllSound(m, s, end, ts)
    ensures |r| == |ts|
  {
    Renders(m, s, Written(m, s, end, ts), end, ts)
  }

  /** The Ethernet frames that one buffer adds to the queue. */
  function Carried(m: Mux, s: seq<byte>, start: nat, count: nat, allocs: nat): (r: seq<Delivery>)
    requires m.Valid() && start + count <= |s|
    ensures |r| == |FollowAll(m, s, start, count, allocs).taken|
  {
    Results(m, s, start + count, FollowAll(m, s, start, count, allocs).taken)
  }

  lemma WrittenOne(m: Mux, s: seq<byte>, end: nat, ts: seq<Taken>, t: Taken)
    requires m.Valid() && end <= |s| && AllSound(m, s, end, ts) && Sound(m, s, end, t)
    ensures
      var w := Written(m, s, end, ts);
      Written(m, s, end, ts + [t]) == if t.shared then Overwrite(w, t.at - 10, HeaderOf(m, t)) else w
  {
    hide QmapFrame.ReadHead, HeaderOf;
    assert (ts + [t])[..|ts|] == ts;
  }

  // ---------------------------------------------------------------------------------------
  // Header writes and the packets queued before

  /** The frame at `p` is queued. */
  predicate Takes(h: Head, headroom: nat, left: nat) {
    h.Ip? && left > 0 && !(headroom < ETH_HLEN && h.len < 0)
  }

  /** The turn of the loop at `p`. */
  lemma FollowStep(m: Mux, s: seq<byte>, end: nat, p: nat, headroom: nat, left: nat)
    requires m.Valid() && p <= end <= |s| && Room(p, headroom)
    ensures end - p <= 4 ==> Follow(m, s, end, p, headroom, left) == Trace([], Finished)
    ensures end - p > 4 ==>
              var h := ReadHead(Legacy, m, s[p..end]);
              var t := Taken(p, h, headroom >= ETH_HLEN);
              var tr := Follow(m, s, end, p, headroom, left);
              && (h.Skip? ==>
                    && p + 4 <= p + h.adv <= end && Room(p + h.adv, headroom)
                    && tr == Follow(m, s, end, p + h.adv, headroom, left))
              && (Takes(h, headroom, left) ==>
                    && Sound(m, s, end, t) && p + 4 <= p + h.adv <= end && Room(p + h.adv, t.Headroom(s))
                    && h.len + s[p] % 64 == h.adv - 4
                    && var rest := Follow(m, s, end, p + h.adv, t.Headroom(s), left - 1);
                       tr == Trace([t] + rest.taken, rest.stop))
              && (!h.Skip? && !Takes(h, headroom, left) ==>
                    tr == Trace([], if h.Reject? then Refused else if left == 0 then NoMemory else Crashed))
  {
    hide QmapFrame.ReadHead;
  }

  /** A clone leaves its padding as headroom for the next one, a copy all that its frame held. */
  lemma HeadroomLeft(m: Mux, s: seq<byte>, end: nat, t: Taken)
    requires m.Valid() && end <= |s| && Sound(m, s, end, t)
    ensures t.Headroom(s) == if t.shared then s[t.at] % 64 else U16(s[t.at + 2], s[t.at + 3])
  {
    var f := s[t.at..end];
    assert f[2] == s[t.at + 2] && f[3] == s[t.at + 3];
  }

  /** The frames behind frame `i` are what the receiver makes of the input behind it. */
  lemma {:induction false} Resumes(m: Mux, s: seq<byte>, end: nat, p: nat, headroom: nat, left: nat, i: nat)
    requires m.Valid() && p <= end <= |s| && Room(p, headroom)
    requires i < |Follow(m, s, end, p, headroom, left).taken|
    ensures
      var tr := Follow(m, s, end, p, headroom, left);
      var t := tr.taken[i];
      && t.at + t.head.adv <= end && Room(t.at + t.head.adv, t.Headroom(s)) && i < left
      && Trace(tr.taken[i + 1..], tr.stop) == Follow(m, s, end, t.at + t.head.adv, t.Headroom(s), left - i - 1)
    decreases end - p
  {
    hide QmapFrame.ReadHead, Follow, Sound, Taken.Headroom, Room;
    FollowStep(m, s, end, p, headroom, left);
    var h := ReadHead(Legacy, m, s[p..end]);
    if h.Skip? {
      Resumes(m, s, end, p + h.adv, headroom, left, i);
    } else {
      var t := Taken(p, h, headroom >= ETH_HLEN);
      var tr, rest := Follow(m, s, end, p, headroom, left), Follow(m, s, end, p + h.adv, t.Headroom(s), left - 1);
      assert tr.taken[1..] == rest.taken;
      if i > 0 {
        Resumes(m, s, end, p + h.adv, t.Headroom(s), left - 1, i - 1);
        assert tr.taken[i] == rest.taken[i - 1] && tr.taken[i + 1..] == rest.taken[i..];
      }
    }
  }

  /** Nothing is written below `bound` as long as the headroom stays above it. */
  lemma {:induction false} WritesBehind(m: Mux, s: seq<byte>, end: nat, p: nat, headroom: nat, left: nat, bound: nat)
    requires m.Valid() && p <= end <= |s| && Room(p, headroom)
    requires bound <= p && (headroom >= ETH_HLEN ==> bound <= p - ETH_HLEN)
    ensures
      var ts := Follow(m, s, end, p, headroom, left).taken;
      forall k | 0 <= k < |ts| && ts[k].shared :: bound <= ts[k].at - 10
    decreases end - p
  {
    hide QmapFrame.ReadHead, Follow, Sound, Room;
    FollowStep(m, s, end, p, headroom, left);
    if end - p > 4 {
      var h := ReadHead(Legacy, m, s[p..end]);
      if h.Skip? {
        WritesBehind(m, s, end, p + h.adv, headroom, left, bound);
      } else if Takes(h, headroom, left) {
        var t := Taken(p, h, headroom >= ETH_HLEN);
        WritesBehind(m, s, end, p + h.adv, t.Headroom(s), left - 1, bound);
      }
    }
  }

  /**
   A later clone's header is written over an earlier clone's bytes if and only if the earlier frame
   announced more padding than data.
   */
  lemma OverwrittenIff(m: Mux, s: seq<byte>, start: nat, count: nat, allocs: nat, i: nat, j: nat)
    requires m.Valid() && start + count <= |s|
    requires i < j < |FollowAll(m, s, start, count, allocs).taken|
    requires var ts := FollowAll(m, s, start, count, allocs).taken; ts[i].shared && ts[j].shared
    ensures
      var ts := FollowAll(m, s, start, count, allocs).taken;
      var from, to := ts[i].at - 10, ts[i].at + 4 + ts[i].Length(start + count);
      && from < ts[j].at - 10
      && (ts[j].at - 10 < to <==> !ts[i].WellPadded())
  {
    hide QmapFrame.ReadHead, Follow;
    var end := start + count;
    var ts := FollowAll(m, s, start, count, allocs).taken;
    Resumes(m, s, end, start, start, allocs, i);
    var t := ts[i];
    assert ts[j] == ts[i + 1..][j - i - 1];
    if t.WellPadded() {
      WritesBehind(m, s, end, t.at + t.head.adv, t.Headroom(s), allocs - i - 1, t.at + 4 + t.head.len);
    }
  }

  /** Everything from the end of a frame's header on is still as it arrived when the next frame is read. */
  lemma {:induction false} Unread(m: Mux, s: seq<byte>, end: nat, ts: seq<Taken>, bound: nat)
    requires m.Valid() && end <= |s| && AllSound(m, s, end, ts) && bound <= |s|
    requires forall k | 0 <= k < |ts| && ts[k].shared :: ts[k].at + 4 <= bound
    ensures Written(m, s, end, ts)[bound..] == s[bound..]
  {
    hide QmapFrame.ReadHead, HeaderOf, Overwrite;
    if ts != [] {
      var t := ts[|ts| - 1];
      Unread(m, s, end, ts[..|ts| - 1], bound);
      if t.shared {
        BehindWrite(Written(m, s, end, ts[..|ts| - 1]), t.at - 10, HeaderOf(m, t), bound);
      }
    }
  }

  lemma BehindWrite(w: seq<byte>, at: nat, part: seq<byte>, bound: nat)
    requires at + |part| <= bound <= |w|
    ensures Overwrite(w, at, part)[bound..] == w[bound..]
  {
    var v := Overwrite(w, at, part);
    var a, b := v[bound..], w[bound..];
    forall i | 0 <= i < |w| - bound
      ensures a[i] == b[i]
    {
      assert v[bound + i] == w[bound + i];
    }
  }

  lemma {:induction false} FramesInOrder(m: Mux, s: seq<byte>, end: nat, p: nat, headroom: nat, left: nat, i: nat,
                                         j: nat)
    requires m.Valid() && p <= end <= |s| && Room(p, headroom)
    requires i < j < |Follow(m, s, end, p, headroom, left).taken|
    ensures
      var ts := Follow(m, s, end, p, headroom, left).taken;
      ts[i].at + ts[i].head.adv <= ts[j].at
  {
    hide QmapFrame.ReadHead, Follow;
    var tr := Follow(m, s, end, p, headroom, left);
    Resumes(m, s, end, p, headroom, left, i);
    assert tr.taken[j] == tr.taken[i + 1..][j - i - 1];
  }

  /** In the buffer `w`, the frame `t` has its header in front of the payload that arrived. */
  predicate Intact(m: Mux, s: seq<byte>, w: seq<byte>, end: nat, t: Taken)
    requires m.Valid() && end <= |s| == |w| && Sound(m, s, end, t) && t.shared && t.WellPadded()
  {
    w[t.at - 10..t.at + 4 + t.head.len] == HeaderOf(m, t) + s[t.at + 4..t.at + 4 + t.head.len]
  }

  lemma HeaderWritten(m: Mux, s: seq<byte>, w: seq<byte>, end: nat, t: Taken)
    requires m.Valid() && end <= |s| == |w| && Sound(m, s, end, t) && t.shared && t.WellPadded()
    requires w[t.at + 4..] == s[t.at + 4..]
    ensures Intact(m, s, Overwrite(w, t.at - 10, HeaderOf(m, t)), end, t)
  {
    hide QmapFrame.ReadHead, HeaderOf, Overwrite;
    WrittenAt(w, t.at - 10, HeaderOf(m, t), t.head.len);
    SameSuffix(w, s, t.at + 4, t.head.len);
  }

  lemma WrittenAt(w: seq<byte>, at: nat, part: seq<byte>, more: nat)
    requires at + |part| + more <= |w|
    ensures
      var to := at + |part|;
      Overwrite(w, at, part)[at..to + more] == part + w[to..to + more]
  {
    var v, to := Overwrite(w, at, part), at + |part|;
    var a, b := v[at..to + more], part + w[to..to + more];
    forall i | 0 <= i < |a|
      ensures a[i] == b[i]
    {
      assert v[at + i] == if i < |part| then part[i] else w[at + i];
    }
  }

  lemma SuffixBehind(w: seq<byte>, s: seq<byte>, from: nat, to: nat)
    requires |w| == |s| && from <= to <= |s| && w[from..] == s[from..]
    ensures w[to..] == s[to..]
  {
    var a, b := w[to..], s[to..];
    forall i | 0 <= i < |a|
      ensures a[i] == b[i]
    {
      assert w[from..][to - from + i] == s[from..][to - from + i];
    }
  }

  lemma SameSuffix(w: seq<byte>, s: seq<byte>, from: nat, n: nat)
    requires |w| == |s| && from + n <= |s| && w[from..] == s[from..]
    ensures w[from..from + n] == s[from..from + n]
  {
    var a, b := w[from..from + n], s[from..from + n];
    forall i | 0 <= i < n
      ensures a[i] == b[i]
    {
      assert w[from..][i] == s[from..][i];
    }
  }

  /** What is written elsewhere does no harm. */
  lemma StaysIntact(m: Mux, s: seq<byte>, w: seq<byte>, end: nat, t: Taken, at: nat, part: seq<byte>)
    requires m.Valid() && end <= |s| == |w| && Sound(m, s, end, t) && t.shared && t.WellPadded()
    requires Intact(m, s, w, end, t) && t.at + 4 + t.head.len <= at && at + |part| <= |w|
    ensures Intact(m, s, Overwrite(w, at, part), end, t)
  {
    hide QmapFrame.ReadHead, EthHeader;
    var from, to := t.at - 10, t.at + 4 + t.head.len;
    var v := Overwrite(w, at, part);
    var a, b := v[from..to], w[from..to];
    forall i | 0 <= i < to - from
      ensures a[i] == b[i]
    {
      assert v[from + i] == w[from + i];
    }
  }

  /** A well-padded frame is intact when its header has been written, and stays so. */
  lemma {:induction false} KeptApart(m: Mux, s: seq<byte>, start: nat, count: nat, allocs: nat, k: nat, n: nat)
    requires m.Valid() && start + count <= |s| && k < n <= |FollowAll(m, s, start, count, allocs).taken|
    requires var t := FollowAll(m, s, start, count, allocs).taken[k]; t.shared && t.WellPadded()
    ensures
      var ts, end := FollowAll(m, s, start, count, allocs).taken, start + count;
      Intact(m, s, Written(m, s, end, ts[..n]), end, ts[k])
    decreases n
  {
    hide QmapFrame.ReadHead, FollowAll, HeaderOf, Intact, Taken.Headroom, Written, Overwrite;
    var ts, end := FollowAll(m, s, start, count, allocs).taken, start + count;
    assert ts[..n] == ts[..n - 1] + [ts[n - 1]];
    WrittenOne(m, s, end, ts[..n - 1], ts[n - 1]);
    if n > k + 1 {
      KeptApart(m, s, start, count, allocs, k, n - 1);
      if ts[n - 1].shared {
        OverwrittenIff(m, s, start, count, allocs, k, n - 1);
        StaysIntact(m, s, Written(m, s, end, ts[..n - 1]), end, ts[k], ts[n - 1].at - 10, HeaderOf(m, ts[n - 1]));
      }
    } else {
      ReadyFor(m, s, start, count, allocs, k);
      HeaderWritten(m, s, Written(m, s, end, ts[..k]), end, ts[k]);
    }
  }

  /** When a frame's turn comes, its payload and all behind it are as they arrived. */
  lemma ReadyFor(m: Mux, s: seq<byte>, start: nat, count: nat, allocs: nat, k: nat)
    requires m.Valid() && start + count <= |s| && k < |FollowAll(m, s, start, count, allocs).taken|
    ensures
      var ts := FollowAll(m, s, start, count, allocs).taken;
      Written(m, s, start + count, ts[..k])[ts[k].at + 4..] == s[ts[k].at + 4..]
  {
    hide QmapFrame.ReadHead, Follow, EthHeader;
    var ts, end := FollowAll(m, s, start, count, allocs).taken, start + count;
    forall i | 0 <= i < k && ts[i].shared
      ensures ts[..k][i].at + 4 <= ts[k].at + 4
    {
      FramesInOrder(m, s, end, start, start, allocs, i, k);
    }
    Unread(m, s, end, ts[..k], ts[k].at + 4);
  }

  function PacketOfTaken(m: Mux, s: seq<byte>, end: nat, t: Taken): Packet
    requires m.Valid() && end <= |s| && Sound(m, s, end, t) && t.WellPadded()
  {
    Packet(t.head.dev, t.head.proto, s[t.at + 4..t.at + 4 + t.head.len])
  }

  /**
   Alias safety: every frame that announces no more padding than data ends up in the queue with
   exactly its own header and its original payload, whatever comes before and behind it.
   */
  lemma QueuedRight(m: Mux, s: seq<byte>, start: nat, count: nat, allocs: nat, k: nat)
    requires m.Valid() && start + count <= |s| && k < |FollowAll(m, s, start, count, allocs).taken|
    requires FollowAll(m, s, start, count, allocs).taken[k].WellPadded()
    ensures
      var t := FollowAll(m, s, start, count, allocs).taken[k];
      Carried(m, s, start, count, allocs)[k] == Ethernet(m, PacketOfTaken(m, s, start + count, t))
  {
    hide QmapFrame.ReadHead, Follow, EthHeader, Written;
    var ts := FollowAll(m, s, start, count, allocs).taken;
    if ts[k].shared {
      KeptApart(m, s, start, count, allocs, k, |ts|);
      assert ts[..|ts|] == ts;
    }
  }

  /**
   In bytes: the frame is an Ethernet frame for the device that the header names, and behind the
   fourteen bytes it holds what arrived between the header and the padding.
   */
  lemma CarriedFrame(m: Mux, s: seq<byte>, start: nat, count: nat, allocs: nat, k: nat)
    requires m.Valid() && start + count <= |s| && k < |FollowAll(m, s, start, count, allocs).taken|
    requires FollowAll(m, s, start, count, allocs).taken[k].WellPadded()
    ensures
      var at, f := FollowAll(m, s, start, count, allocs).taken[k].at, Carried(m, s, start, count, allocs)[k];
      var len := U16(s[at + 2], s[at + 3]) - s[at] % 64;
      && EtherFrame(m, f) && f.dev == s[at + 1] - 0x81
      && 0 <= len && at + 4 + len <= |s| && f.bytes[14..] == s[at + 4..at + 4 + len]
  {
    var t := FollowAll(m, s, start, count, allocs).taken[k];
    TakenFields(m, s, start + count, t);
    QueuedRight(m, s, start, count, allocs, k);
    hide QmapFrame.ReadHead, FollowAll, Carried, EtherFrame, ProtoNamed, Ethernet;
    EthernetFields(m, PacketOfTaken(m, s, start + count, t));
  }

  /** All packets of well-padded frames are Ethernet frames. */
  predicate AllEther(m: Mux, ts: seq<Taken>, carried: seq<Delivery>)
    requires m.Valid() && |carried| == |ts|
  {
    forall k | 0 <= k < |ts| && ts[k].WellPadded() :: EtherFrame(m, carried[k])
  }

  lemma CarriedFrames(m: Mux, s: seq<byte>, start: nat, count: nat, allocs: nat)
    requires m.Valid() && start + count <= |s|
    ensures AllEther(m, FollowAll(m, s, start, count, allocs).taken, Carried(m, s, start, count, allocs))
  {
    hide FollowAll, Carried, Taken.WellPadded, EtherFrame;
    var ts := FollowAll(m, s, start, count, allocs).taken;
    forall k | 0 <= k < |ts| && ts[k].WellPadded()
      ensures EtherFrame(m, Carried(m, s, start, count, allocs)[k])
    {
      CarriedFrame(m, s, start, count, allocs, k);
    }
  }

  lemma TakenFields(m: Mux, s: seq<byte>, end: nat, t: Taken)
    requires m.Valid() && end <= |s| && Sound(m, s, end, t) && t.WellPadded()
    ensures ProtoNamed(PacketOfTaken(m, s, end, t)) && m.Registered(t.head.dev)
    ensures t.head.dev == s[t.at + 1] - 0x81 && t.head.len == U16(s[t.at + 2], s[t.at + 3]) - s[t.at] % 64
    ensures t.at + 4 + t.head.len <= end
  {
    var f := s[t.at..end];
    assert f[0] == s[t.at] && f[1] == s[t.at + 1] && f[2] == s[t.at + 2] && f[3] == s[t.at + 3] && f[4] == s[t.at + 4];
    HeadProto(Legacy, m, f);
    hide QmapFrame.ProtoOf;
  }

  // ---------------------------------------------------------------------------------------
  // Against the copying parse

  /** How many packets of a parse are carried when `allocs` allocations succeed. */
  function Granted(ref: Parse, allocs: nat): (n: nat)
    ensures n <= |ref.packets|
  {
    if allocs < |ref.packets| then allocs else |ref.packets|
  }

  /** A frame with more padding than data is reached while there is memory for it. */
  predicate Trips(ref: Parse, allocs: nat) {
    ref.stop == IllPadded && allocs > |ref.packets|
  }

  /** The headroom behind the frames `ts` of a buffer that started with `headroom`. */
  function HeadroomBehind(m: Mux, s: seq<byte>, end: nat, headroom: nat, ts: seq<Taken>): nat
    requires m.Valid() && end <= |s| && AllSound(m, s, end, ts)
  {
    if ts == [] then headroom else ts[|ts| - 1].Headroom(s)
  }

  /** A queued frame and the packet that the parse finds in its place. */
  predicate Same(m: Mux, s: seq<byte>, end: nat, t: Taken, packet: Packet)
    requires m.Valid() && end <= |s| && Sound(m, s, end, t)
  {
    t.WellPadded() && PacketOfTaken(m, s, end, t) == packet
  }

  predicate AllSame(m: Mux, s: seq<byte>, end: nat, ts: seq<Taken>, packets: seq<Packet>)
    requires m.Valid() && end <= |s| && AllSound(m, s, end, ts)
  {
    |packets| <= |ts| && forall k | 0 <= k < |packets| :: Same(m, s, end, ts[k], packets[k])
  }

  /** How it goes on behind the packets of the parse. */
  predicate Ends(m: Mux, s: seq<byte>, end: nat, headroom: nat, left: nat, tr: Trace, ref: Parse)
    requires m.Valid() && end <= |s| && AllSound(m, s, end, tr.taken) && Granted(ref, left) <= |tr.taken|
  {
    var n := Granted(ref, left);
    if Trips(ref, left) then
      && (|tr.taken| > n <==> HeadroomBehind(m, s, end, headroom, tr.taken[..n]) >= ETH_HLEN)
      && (if |tr.taken| == n then tr.stop == Crashed else !tr.taken[n].WellPadded())
    else |tr.taken| == n && tr.stop == StopOf(ref, left)
  }

  function StopOf(ref: Parse, allocs: nat): Stopped {
    if allocs < |ref.packets| || ref.stop == IllPadded then NoMemory
    else if ref.stop == Done then Finished else Refused
  }

  /**
   The frames are those of the copying parse up to the first one with more padding than data. That
   one is queued as well if and only if the headroom in front of it is large enough for a clone.
   */
  lemma {:induction false} FollowAgrees(m: Mux, s: seq<byte>, end: nat, p: nat, headroom: nat, left: nat)
    requires m.Valid() && p <= end <= |s| && Room(p, headroom)
    ensures
      var tr, ref := Follow(m, s, end, p, headroom, left), Split(Legacy, m, s[p..end]);
      && Granted(ref, left) <= |tr.taken| && AllSame(m, s, end, tr.taken, ref.packets[..Granted(ref, left)])
      && Ends(m, s, end, headroom, left, tr, ref)
    decreases end - p
  {
    hide QmapFrame.ReadHead, QmapFrame.Split, Follow, AllSame, Ends, Same, PacketOfTaken, HeadroomBehind;
    FollowStep(m, s, end, p, headroom, left);
    if end - p <= 4 {
      AgreesAtOnce(m, s, end, p, headroom, left);
    } else {
      var h := ReadHead(Legacy, m, s[p..end]);
      if h.Skip? {
        SplitStep(m, s, end, p);
        FollowAgrees(m, s, end, p + h.adv, headroom, left);
      } else if h.Ip? && h.len >= 0 && left > 0 {
        SplitStep(m, s, end, p);
        var t := Taken(p, h, headroom >= ETH_HLEN);
        FollowAgrees(m, s, end, p + h.adv, t.Headroom(s), left - 1);
        var tr, ref := Follow(m, s, end, p + h.adv, t.Headroom(s), left - 1), Split(Legacy, m, s[p + h.adv..end]);
        TakenSame(m, s, end, p, t);
        SameStep(m, s, end, t, NextPacket(Legacy, m, s[p..end]), tr.taken, ref, left);
        EndsStep(m, s, end, headroom, left, t, NextPacket(Legacy, m, s[p..end]), tr, ref);
      } else {
        AgreesAtOnce(m, s, end, p, headroom, left);
      }
    }
  }

  /** The turn of the copying parse at `p`. */
  lemma SplitStep(m: Mux, s: seq<byte>, end: nat, p: nat)
    requires m.Valid() && p <= end <= |s| && end - p > 4
    ensures
      var h := ReadHead(Legacy, m, s[p..end]);
      && (h.Skip? ==> Split(Legacy, m, s[p..end]) == Split(Legacy, m, s[p + h.adv..end]))
      && (h.Ip? && h.len >= 0 ==>
            var ref := Split(Legacy, m, s[p + h.adv..end]);
            Split(Legacy, m, s[p..end]) == Parse([NextPacket(Legacy, m, s[p..end])] + ref.packets, ref.stop))
  {
    hide QmapFrame.ReadHead;
    var h := ReadHead(Legacy, m, s[p..end]);
    if !h.Reject? {
      assert s[p..end][h.adv..] == s[p + h.adv..end];
    }
  }

  /** The loop is left at once, or its first frame has more padding than data. */
  lemma AgreesAtOnce(m: Mux, s: seq<byte>, end: nat, p: nat, headroom: nat, left: nat)
    requires m.Valid() && p <= end <= |s| && Room(p, headroom)
    requires end - p > 4 ==>
      var h := ReadHead(Legacy, m, s[p..end]); h.Reject? || (h.Ip? && (left == 0 || h.len < 0))
    ensures
      var tr, ref := Follow(m, s, end, p, headroom, left), Split(Legacy, m, s[p..end]);
      && Granted(ref, left) <= |tr.taken| && AllSame(m, s, end, tr.taken, ref.packets[..Granted(ref, left)])
      && Ends(m, s, end, headroom, left, tr, ref)
  {
    hide QmapFrame.ReadHead;
  }

  lemma TakenSame(m: Mux, s: seq<byte>, end: nat, p: nat, t: Taken)
    requires m.Valid() && p <= end <= |s| && end - p > 4 && t.at == p && Sound(m, s, end, t) && t.WellPadded()
    ensures Same(m, s, end, t, NextPacket(Legacy, m, s[p..end]))
  {
    hide QmapFrame.ReadHead;
    SliceOfSlice(s, p, end, 4, 4 + t.head.len);
  }

  lemma SliceOfSlice(s: seq<byte>, a: nat, b: nat, c: nat, d: nat)
    requires a <= b <= |s| && c <= d <= b - a
    ensures s[a..b][c..d] == s[a + c..a + d]
  {
    var t, u := s[a..b][c..d], s[a + c..a + d];
    forall i | 0 <= i < d - c
      ensures t[i] == u[i]
    {
      assert s[a..b][c..d][i] == s[a..b][c + i];
    }
  }

  lemma SameStep(m: Mux, s: seq<byte>, end: nat, t: Taken, packet: Packet, ts: seq<Taken>, ref: Parse, left: nat)
    requires m.Valid() && end <= |s| && AllSound(m, s, end, ts) && Sound(m, s, end, t) && Same(m, s, end, t, packet)
    requires left > 0 && AllSame(m, s, end, ts, ref.packets[..Granted(ref, left - 1)])
    ensures
      var longer := Parse([packet] + ref.packets, ref.stop);
      AllSame(m, s, end, [t] + ts, longer.packets[..Granted(longer, left)])
  {
    hide QmapFrame.ReadHead, Same, Sound;
    var n := Granted(ref, left - 1);
    assert ([packet] + ref.packets)[..n + 1] == [packet] + ref.packets[..n];
  }

  lemma EndsStep(m: Mux, s: seq<byte>, end: nat, headroom: nat, left: nat, t: Taken, packet: Packet, tr: Trace,
                 ref: Parse)
    requires m.Valid() && end <= |s| && AllSound(m, s, end, tr.taken) && Sound(m, s, end, t) && left > 0
    requires Granted(ref, left - 1) <= |tr.taken| && Ends(m, s, end, t.Headroom(s), left - 1, tr, ref)
    ensures Ends(m, s, end, headroom, left, Trace([t] + tr.taken, tr.stop), Parse([packet] + ref.packets, ref.stop))
  {
    hide QmapFrame.ReadHead, Sound;
    var n := Granted(ref, left - 1);
    assert ([t] + tr.taken)[..n + 1] == [t] + tr.taken[..n];
  }

  /**
   What one buffer adds to the queue, against the copying parse `ref` of its bytes: the packets of the
   parse, as many as there is memory for, and nothing else, unless a frame with more padding than
   data is reached; then the receiver crashes there or queues that frame as well, and more behind it.
   */
  ghost predicate Outcome(m: Mux, ref: Parse, allocs: nat, stop: Stopped, carried: seq<Delivery>)
    requires m.Valid() && AllRegistered(m, ref.packets)
  {
    var sent := Ethernets(m, ref.packets[..Granted(ref, allocs)]);
    if Trips(ref, allocs) then sent <= carried && (carried == sent ==> stop == Crashed)
    else carried == sent && stop == StopOf(ref, allocs)
  }

  lemma OutcomeOf(m: Mux, s: seq<byte>, start: nat, count: nat, allocs: nat)
    requires m.Valid() && start + count <= |s|
    ensures AllRegistered(m, Split(Legacy, m, s[start..start + count]).packets)
    ensures Outcome(m, Split(Legacy, m, s[start..start + count]), allocs,
                    FollowAll(m, s, start, count, allocs).stop, Carried(m, s, start, count, allocs))
  {
    hide QmapFrame.ReadHead, QmapFrame.Split, Follow, Ethernets, Ethernet, Carried;
    var ref := Split(Legacy, m, s[start..start + count]);
    SplitRegistered(Legacy, m, s[start..start + count]);
    FollowAgrees(m, s, start + count, start, start, allocs);
    var packets := ref.packets[..Granted(ref, allocs)];
    forall k | 0 <= k < |packets|
      ensures Carried(m, s, start, count, allocs)[k] == Ethernets(m, packets)[k]
    {
      QueuedRight(m, s, start, count, allocs, k);
      EthernetsAt(m, packets, k);
    }
  }

  /**
   The legacy receiver adds exactly the packets of the copying parse to the queue, without crashing,
   if and only if no frame with more padding than data is reached while there is memory for it.
   */
  lemma AliasSafeIff(m: Mux, s: seq<byte>, start: nat, count: nat, allocs: nat)
    requires m.Valid() && start + count <= |s|
    ensures AllRegistered(m, Split(Legacy, m, s[start..start + count]).packets)
    ensures
      var ref, stop := Split(Legacy, m, s[start..start + count]), FollowAll(m, s, start, count, allocs).stop;
      (&& stop != Crashed
       && Carried(m, s, start, count, allocs) == Ethernets(m, ref.packets[..Granted(ref, allocs)]))
      <==> !Trips(ref, allocs)
  {
    hide QmapFrame.Split, Follow, Ethernets, Carried;
    OutcomeOf(m, s, start, count, allocs);
  }

  /** One device with the given address. */
  function OneDevice(mac: seq<byte>): (m: Mux)
    requires |mac| == 6
    ensures m.Valid() && m.Registered(0)
  {
    Mux(1, [Some(NetDev(mac)), None, None, None])
  }

  /** Fourteen bytes of headroom in front of an aggregate. */
  function WithHeadroom(aggregate: seq<byte>): (s: seq<byte>)
    ensures |s| == ETH_HLEN + |aggregate| && s[ETH_HLEN..] == aggregate
  {
    seq(ETH_HLEN, _ => 0) + aggregate
  }

  /** A frame without data and with one byte of padding is delivered with the rest of the buffer for a payload. */
  lemma IllPaddedDelivered(mac: seq<byte>, allocs: nat)
    requires |mac| == 6 && allocs > 0
    ensures
      var m, s := OneDevice(mac), WithHeadroom([1, 0x81, 0, 0, 0x40]);
      && Split(Legacy, m, s[14..19]) == Parse([], IllPadded)
      && FollowAll(m, s, 14, 5, allocs).stop == Finished
      && Carried(m, s, 14, 5, allocs) == [Delivery(0, mac + [0x02, 0x50, 0xf3, 0, 0, 0, 0x08, 0x00] + [0x40])]
  {
    assert EthHeader(mac, IPv4) == mac + [0x02, 0x50, 0xf3, 0, 0, 0, 0x08, 0x00];
    hide EthHeader;
    var m, s := OneDevice(mac), WithHeadroom([1, 0x81, 0, 0, 0x40]);
    var t := Taken(14, Ip(0, IPv4, 4, -1, 4), true);
    assert s[14..19] == [1, 0x81, 0, 0, 0x40];
    assert ReadHead(Legacy, m, s[14..19]) == t.head;
    assert FollowAll(m, s, 14, 5, allocs) == Trace([t], Finished);
    assert [t][..0] == [];
    assert Written(m, s, 19, [t]) == Overwrite(s, 4, HeaderOf(m, t));
    assert Overwrite(s, 4, HeaderOf(m, t))[4..19] == EthHeader(mac, IPv4) + [0x40];
  }

  /** A frame with nineteen bytes of padding more than data, and a good one behind it. */
  function Overlapping(): (s: seq<byte>)
    ensures |s| == 24
  {
    WithHeadroom([20, 0x81, 0, 1, 0x40, 0, 0x81, 0, 1, 0x45])
  }

  lemma OverlappingTaken(mac: seq<byte>, allocs: nat)
    requires |mac| == 6 && allocs > 1
    ensures Split(Legacy, OneDevice(mac), Overlapping()[14..24]) == Parse([], IllPadded)
    ensures FollowAll(OneDevice(mac), Overlapping(), 14, 10, allocs)
            == Trace([Taken(14, Ip(0, IPv4, 4, -19, 5), true), Taken(19, Ip(0, IPv4, 4, 1, 5), true)], Finished)
  {
    var m, s := OneDevice(mac), Overlapping();
    assert s[14..24] == [20, 0x81, 0, 1, 0x40, 0, 0x81, 0, 1, 0x45] && s[19..24] == [0, 0x81, 0, 1, 0x45];
    assert ReadHead(Legacy, m, s[14..24]) == Ip(0, IPv4, 4, -19, 5);
    assert ReadHead(Legacy, m, s[19..24]) == Ip(0, IPv4, 4, 1, 5);
    hide QmapFrame.ReadHead, Follow, OneDevice, Overlapping;
    FollowStep(m, s, 24, 14, 14, allocs);
    FollowStep(m, s, 24, 19, 20, allocs - 1);
    FollowStep(m, s, 24, 24, 0, allocs - 2);
  }

  /** The header of the second frame is written over the payload of the first. */
  lemma FirstOverwritten(mac: seq<byte>, allocs: nat)
    requires |mac| == 6 && allocs > 1
    ensures
      var m, s, h := OneDevice(mac), Overlapping(), mac + [0x02, 0x50, 0xf3, 0, 0, 0, 0x08, 0x00];
      && FollowAll(m, s, 14, 10, allocs).stop == Finished
      && Carried(m, s, 14, 10, allocs) == [Delivery(0, h[..5] + h + [0x45]), Delivery(0, h + [0x45])]
  {
    assert EthHeader(mac, IPv4) == mac + [0x02, 0x50, 0xf3, 0, 0, 0, 0x08, 0x00];
    hide EthHeader, QmapFrame.ReadHead, Follow, FollowAll, Written;
    OverlappingTaken(mac, allocs);
    var m, s, h := OneDevice(mac), Overlapping(), EthHeader(mac, IPv4);
    var ts := FollowAll(m, s, 14, 10, allocs).taken;
    TwoHeaders(m, s, 24, ts[0], ts[1]);
    var w := Overwrite(Overwrite(s, 4, h), 9, h);
    assert w[23] == s[23] == 0x45;
    assert w[4..24] == h[..5] + h + [0x45] && w[9..24] == h + [0x45];
  }

  lemma TwoHeaders(m: Mux, s: seq<byte>, end: nat, t: Taken, u: Taken)
    requires m.Valid() && end <= |s| && Sound(m, s, end, t) && Sound(m, s, end, u) && t.shared && u.shared
    ensures Written(m, s, end, [t, u]) == Overwrite(Overwrite(s, t.at - 10, HeaderOf(m, t)), u.at - 10, HeaderOf(m, u))
  {
    hide QmapFrame.ReadHead, HeaderOf;
    assert [t, u][..1] == [t] && [t][..0] == [];
    assert Written(m, s, end, [t]) == Overwrite(s, t.at - 10, HeaderOf(m, t));
  }

  // ---------------------------------------------------------------------------------------
  // The legacy receiver

  /** A socket buffer in the queue: `len` bytes at `off` of a buffer that others may share. */
  datatype View = View(dev: nat, buf: array<byte>, off: nat, len: nat) {
    predicate Valid() {
      off + len <= buf.Length
    }

    function Shown(): Delivery
      requires Valid()
      reads buf
    {
      Delivery(dev, buf[off..off + len])
    }
  }

  ghost predicate AllValid(vs: seq<View>) {
    forall v | v in vs :: v.Valid()
  }

  /** What the views hold, in order. */
  ghost function AllShown(vs: seq<View>): (r: seq<Delivery>)
    requires AllValid(vs)
    reads set v | v in vs :: v.buf
    ensures |r| == |vs| && forall k | 0 <= k < |vs| :: r[k] == vs[k].Shown()
  {
    if vs == [] then [] else [vs[0].Shown()] + AllShown(vs[1..])
  }

  lemma FirstShown(vs: seq<View>)
    requires AllValid(vs) && vs != []
    ensures AllValid(vs[1..]) && AllShown(vs) == [vs[0].Shown()] + AllShown(vs[1..])
  {
  }

  /** The view `v` is the packet of the frame `t` of the buffer `urb`, which held `s`. */
  ghost predicate Queued(m: Mux, s: seq<byte>, urb: array<byte>, end: nat, v: View, t: Taken)
    requires m.Valid() && end <= |s| == urb.Length && Sound(m, s, end, t)
    reads v.buf
  {
    if t.shared then v == View(t.head.dev, urb, t.at - 10, ETH_HLEN + t.Length(end))
    else && v.buf != urb && v.Valid()
         && v.Shown() == Delivery(t.head.dev, HeaderOf(m, t) + s[t.at + 4..t.at + 4 + t.head.len])
  }

  /** Behind the views `before`, the queue has those of the frames `ts`. */
  ghost predicate QueueOf(m: Mux, s: seq<byte>, urb: array<byte>, end: nat, before: seq<View>, chain: seq<View>,
                          ts: seq<Taken>)
    requires m.Valid() && end <= |s| == urb.Length && AllSound(m, s, end, ts)
    reads set v | v in chain :: v.buf
  {
    && |chain| == |before| + |ts| && chain[..|before|] == before
    && forall k | 0 <= k < |ts| :: Queued(m, s, urb, end, chain[|before| + k], ts[k])
  }

  /** What the parsing loop leaves behind in buffer and queue. */
  ghost predicate Parsed(m: Mux, s: seq<byte>, urb: array<byte>, start: nat, count: nat, allocs: nat, stop: Stopped,
                         before: seq<View>, chain: seq<View>)
    requires m.Valid() && start + count <= |s| == urb.Length
    reads urb, set v | v in chain :: v.buf
  {
    hide QmapFrame.ReadHead, Follow, Sound, Queued, Written;
    var tr := FollowAll(m, s, start, count, allocs);
    && stop == tr.stop && urb[..] == Written(m, s, start + count, tr.taken)
    && QueueOf(m, s, urb, start + count, before, chain, tr.taken)
  }

  /** One receive buffer of the USB layer, and how many allocations succeed while it is handled. */
  datatype Urb = Urb(buf: array<byte>, start: nat, count: nat, allocs: nat) {
    ghost predicate Brings(s: seq<byte>)
      reads buf
    {
      start + count <= buf.Length && buf[..] == s
    }
  }

  /** How the handling of a buffer that holds `s` ends. */
  function StopOn(m: Mux, s: seq<byte>, u: Urb): Stopped
    requires m.Valid() && u.start + u.count <= |s|
  {
    FollowAll(m, s, u.start, u.count, u.allocs).stop
  }

  ghost predicate AllFit(inputs: seq<seq<byte>>, urbs: seq<Urb>) {
    |inputs| == |urbs| && forall i | 0 <= i < |urbs| :: urbs[i].start + urbs[i].count <= |inputs[i]|
  }

  ghost function AllCarried(m: Mux, inputs: seq<seq<byte>>, urbs: seq<Urb>): seq<Delivery>
    requires m.Valid() && AllFit(inputs, urbs)
  {
    if urbs == [] then []
    else
      var n := |urbs| - 1;
      var u := urbs[n];
      AllCarried(m, inputs[..n], urbs[..n]) + Carried(m, inputs[n], u.start, u.count, u.allocs)
  }

  class LegacyReceiver {
    const mux: Mux
    var chain: seq<View>               // skb_chain
    var delivered: seq<Delivery>       // what the stack has been given, in order

    ghost predicate Valid()
      reads this
    {
      mux.Valid() && AllValid(chain)
    }

    /** What has been given to the stack, followed by what waits in the queue. */
    ghost function Received(): seq<Delivery>
      requires Valid()
      reads this, set v | v in chain :: v.buf
    {
      delivered + AllShown(chain)
    }

    constructor (m: Mux)
      requires m.Valid()
      ensures Valid() && mux == m && chain == [] && delivered == []
    {
      mux, chain, delivered := m, [], [];
    }

    /** Whatever is new in the queue uses `urb` or a new buffer. */
    twostate predicate Newcomers(before: seq<View>, urb: array<byte>)
      reads this
    {
      forall v | v in chain :: v in before || v.buf == urb || fresh(v.buf)
    }

    /**
     Handles one URB: `count` bytes at `start` of a buffer of their own, of which the first
     `start` bytes are headroom; the first `allocs` allocations succeed.
     */
    method RxFixup(urb: array<byte>, start: nat, count: nat, allocs: nat) returns (stop: Stopped)
      requires Valid() && start + count <= urb.Length
      requires forall v | v in chain :: v.buf != urb
      modifies this, urb
      ensures Valid()
      ensures
        var s := old(urb[..]);
        var tr := FollowAll(mux, s, start, count, allocs);
        && stop == tr.stop && urb[..] == Written(mux, s, start + count, tr.taken)
        && Received() == old(Received()) + Carried(mux, s, start, count, allocs)
        && AllEther(mux, tr.taken, Carried(mux, s, start, count, allocs))
      ensures forall i | 0 <= i < start - 10 || start + count <= i < urb.Length :: urb[i] == old(urb[i])
      ensures Newcomers(old(chain), urb)
      ensures if stop == Finished then chain == [] else delivered == old(delivered)
    {
      hide FollowAll, Written, Results, Queued, AllShown, AllEther;
      CarriedFrames(mux, urb[..], start, count, allocs);
      ghost var before := chain;
      stop := ParseUrb(urb, start, count, allocs);
      ghost var ts := FollowAll(mux, old(urb[..]), start, count, allocs).taken;
      Outside(mux, old(urb[..]), start + count, ts, start);
      assert forall k | 0 <= k < |before| :: chain[k] == before[k] && before[k] in before;
      QueueShows(mux, old(urb[..]), urb, start + count, before, chain, ts, old(AllShown(chain)));
      assert forall i | 0 <= i < urb.Length :: urb[i] == urb[..][i] && old(urb[i]) == old(urb[..])[i];
      assert delivered + (old(AllShown(chain)) + Carried(mux, old(urb[..]), start, count, allocs))
             == (delivered + old(AllShown(chain))) + Carried(mux, old(urb[..]), start, count, allocs);
      if stop == Finished {
        Drain();
      }
    }

    /**
     Handles a run of URBs, good and bad, each in a buffer of its own, up to one that crashes the
     receiver: what has been delivered, followed by what still waits in the queue, is everything
     they carried, in order. A refused URB only delays the packets in front of it.
     */
    method ReceiveAll(urbs: seq<Urb>, ghost inputs: seq<seq<byte>>) returns (handled: nat)
      requires Valid() && AllFit(inputs, urbs)
      requires forall i | 0 <= i < |urbs| :: urbs[i].Brings(inputs[i])
      requires forall i, j | 0 <= i < j < |urbs| :: urbs[i].buf != urbs[j].buf
      requires forall i, v | 0 <= i < |urbs| && v in chain :: v.buf != urbs[i].buf
      modifies this, set u | u in urbs :: u.buf
      ensures Valid() && handled <= |urbs|
      ensures Received() == old(Received()) + AllCarried(mux, inputs[..handled], urbs[..handled])
      ensures forall i | 0 <= i < handled - 1 :: StopOn(mux, inputs[i], urbs[i]) != Crashed
      ensures handled < |urbs| ==> handled > 0 && StopOn(mux, inputs[handled - 1], urbs[handled - 1]) == Crashed
    {
      hide FollowAll, Written, Carried, AllShown, AllEther;
      handled := 0;
      var alive := true;
      while handled < |urbs| && alive
        invariant handled <= |urbs| && Valid()
        invariant forall k | handled <= k < |urbs| :: urbs[k].Brings(inputs[k])
        invariant forall k, v | handled <= k < |urbs| && v in chain :: v.buf != urbs[k].buf
        invariant Received() == old(Received()) + AllCarried(mux, inputs[..handled], urbs[..handled])
        invariant forall i | 0 <= i < handled - 1 :: StopOn(mux, inputs[i], urbs[i]) != Crashed
        invariant if handled == 0 then alive
                  else alive == (StopOn(mux, inputs[handled - 1], urbs[handled - 1]) != Crashed)
      {
        var u, n := urbs[handled], handled;
        assert u.Brings(inputs[n]);
        var stop := RxFixup(u.buf, u.start, u.count, u.allocs);
        alive := stop != Crashed;
        handled := handled + 1;
        assert urbs[..handled][..n] == urbs[..n] && inputs[..handled][..n] == inputs[..n];
      }
    }

    /** The parsing loop: queues what it can, and says why it stopped. */
    method ParseUrb(urb: array<byte>, start: nat, count: nat, allocs: nat) returns (stop: Stopped)
      requires Valid() && start + count <= urb.Length
      requires forall v | v in chain :: v.buf != urb
      modifies this, urb
      ensures Valid() && delivered == old(delivered) && Newcomers(old(chain), urb)
      ensures Parsed(mux, old(urb[..]), urb, start, count, allocs, stop, old(chain), chain)
    {
      hide QmapFrame.ReadHead, Follow, Written, Queued, AllShown, Taken.Headroom, Taken.Length;
      var p, end, left: nat, headroom: nat := start, start + count, allocs, start;
      ghost var s, before, done := urb[..], chain, [];
      stop := Finished;
      WrittenNothing(mux, s, end);
      while end - p > 4
        invariant start <= p <= end && Room(p, headroom)
        invariant Valid() && delivered == old(delivered) && Newcomers(old(chain), urb)
        invariant AllSound(mux, s, end, done) && QueueOf(mux, s, urb, end, before, chain, done)
        invariant urb[..] == Written(mux, s, end, done) && urb[p..] == s[p..]
        invariant var rest := Follow(mux, s, end, p, headroom, left);
                  FollowAll(mux, s, start, count, allocs) == Trace(done + rest.taken, rest.stop)
      {
        FollowStep(mux, s, end, p, headroom, left);
        assert urb[p..end] == s[p..end];
        var head := ReadHead(Legacy, mux, urb[p..end]);
        if head.Reject? {
          stop := Refused;
          break;
        } else if head.Ip? {
          if left == 0 {
            stop := NoMemory;
            break;
          } else if headroom < ETH_HLEN && head.len < 0 {
            stop := Crashed;
            break;
          }
          ghost var rest := Follow(mux, s, end, p, headroom, left).taken;
          ghost var t := Taken(p, head, headroom >= ETH_HLEN);
          headroom := Take(s, urb, p, end, headroom, head, before, done);
          left, done := left - 1, done + [t];
        }
        p := p + head.adv;
        assert urb[p..] == urb[p - head.adv..][head.adv..] == s[p - head.adv..][head.adv..];
      }
      FollowStep(mux, s, end, p, headroom, left);
      hide Room;
      assert done + [] == done;
    }

    /** Queues the packet of the frame at `p`, and returns the headroom of the next frame. */
    method Take(ghost s: seq<byte>, urb: array<byte>, p: nat, end: nat, headroom: nat, head: Head,
                ghost before: seq<View>, ghost done: seq<Taken>) returns (headroom': nat)
      requires Valid() && p + 4 < end <= |s| == urb.Length && Room(p, headroom)
      requires head == ReadHead(Legacy, mux, s[p..end]) && head.Ip? && (headroom < ETH_HLEN ==> head.len >= 0)
      requires AllSound(mux, s, end, done) && QueueOf(mux, s, urb, end, before, chain, done)
      requires urb[..] == Written(mux, s, end, done) && urb[p..] == s[p..]
      modifies this, urb
      ensures Valid() && delivered == old(delivered) && Newcomers(old(chain), urb)
      ensures
        var t := Taken(p, head, headroom >= ETH_HLEN);
        && headroom' == t.Headroom(s) && AllSound(mux, s, end, done + [t])
        && QueueOf(mux, s, urb, end, before, chain, done + [t])
        && urb[..] == Written(mux, s, end, done + [t]) && urb[p + 4..] == s[p + 4..]
      ensures headroom < ETH_HLEN ==> urb[..] == old(urb[..])
    {
      hide QmapFrame.ReadHead, HeaderOf, Written, Queued, AllShown;
      assert urb[p] == urb[p..][0] == s[p];
      ghost var t, was := Taken(p, head, headroom >= ETH_HLEN), chain;
      var v: View;
      if headroom >= ETH_HLEN {
        headroom' := urb[p] % 64;      // read before the header is written over it
        v := Clone(s, urb, p, end, head, t, before, done);
      } else {
        headroom' := head.adv - 4;
        v := Copy(s, urb, p, end, head, t);
      }
      chain := chain + [v];
      WrittenOne(mux, s, end, done, t);
      QueueLonger(mux, s, urb, end, before, was, done, v, t);
    }

    /** A view of the input itself, behind an Ethernet header written in front of the payload. */
    method Clone(ghost s: seq<byte>, urb: array<byte>, p: nat, end: nat, head: Head, ghost t: Taken,
                 ghost before: seq<View>, ghost done: seq<Taken>) returns (v: View)
      requires mux.Valid() && p + 4 < end <= |s| == urb.Length && p >= 10
      requires Sound(mux, s, end, t) && t == Taken(p, head, true) && urb[p..] == s[p..]
      requires AllSound(mux, s, end, done) && QueueOf(mux, s, urb, end, before, chain, done)
      modifies urb
      ensures QueueOf(mux, s, urb, end, before, chain, done)
      ensures v.Valid() && v.buf == urb && Queued(mux, s, urb, end, v, t)
      ensures urb[..] == Overwrite(old(urb[..]), p - 10, HeaderOf(mux, t)) && urb[p + 4..] == s[p + 4..]
    {
      hide QmapFrame.ReadHead, EthHeader;
      // skb_trim only ever shortens the clone
      var len := if head.len >= 0 then head.len else end - p - 4;
      PutHeader(urb, p - 10, EthHeader(mux.devs[head.dev].value.mac, head.proto));
      assert urb[p + 4..] == old(urb[p..])[4..] == s[p..][4..];
      forall k | 0 <= k < |done|
        ensures Queued(mux, s, urb, end, chain[|before| + k], done[k])
      {
        assert old(Queued(mux, s, urb, end, chain[|before| + k], done[k]));
      }
      v := View(head.dev, urb, p - 10, ETH_HLEN + len);
    }

    /** A copy of the payload, behind an Ethernet header, in a buffer of its own. */
    method Copy(ghost s: seq<byte>, urb: array<byte>, p: nat, end: nat, head: Head, ghost t: Taken) returns (v: View)
      requires mux.Valid() && p + 4 < end <= |s| == urb.Length
      requires Sound(mux, s, end, t) && t == Taken(p, head, false) && urb[p..] == s[p..]
      ensures v.Valid() && fresh(v.buf) && Queued(mux, s, urb, end, v, t) && urb[p + 4..] == s[p + 4..]
    {
      hide QmapFrame.ReadHead, EthHeader;
      var bytes := EthHeader(mux.devs[head.dev].value.mac, head.proto) + urb[p + 4..p + 4 + head.len];
      ghost var now := urb[..];
      assert now[p..] == urb[p..];
      SuffixBehind(now, s, p, p + 4);
      SameSuffix(now, s, p + 4, head.len);
      assert now[p + 4..p + 4 + head.len] == urb[p + 4..p + 4 + head.len] && now[p + 4..] == urb[p + 4..];
      var own := new byte[|bytes|](i requires 0 <= i < |bytes| => bytes[i]);
      assert own[0..|bytes|] == bytes;
      v := View(head.dev, own, 0, |bytes|);
    }

    method PutHeader(urb: array<byte>, at: nat, eth: seq<byte>)
      requires at + |eth| <= urb.Length
      modifies urb
      ensures urb[..] == Overwrite(old(urb[..]), at, eth)
    {
      forall i | 0 <= i < |eth| {
        urb[at + i] := eth[i];
      }
    }

    /** Hands the whole queue to the network stack. */
    method Drain()
      requires Valid()
      modifies this
      ensures Valid() && chain == [] && delivered == old(Received())
    {
      hide AllShown;
      while chain != []
        invariant Valid() && delivered + AllShown(chain) == old(Received())
      {
        var v := chain[0];
        assert v in chain;
        FirstShown(chain);
        assert delivered + AllShown(chain) == (delivered + [v.Shown()]) + AllShown(chain[1..]);
        delivered := delivered + [v.Shown()];
        chain := chain[1..];
      }
    }
  }

  lemma WrittenNothing(m: Mux, s: seq<byte>, end: nat)
    requires m.Valid() && end <= |s|
    ensures Written(m, s, end, []) == s
  {
  }

  lemma QueueLonger(m: Mux, s: seq<byte>, urb: array<byte>, end: nat, before: seq<View>, chain: seq<View>,
                    ts: seq<Taken>, v: View, t: Taken)
    requires m.Valid() && end <= |s| == urb.Length && AllSound(m, s, end, ts) && Sound(m, s, end, t)
    requires QueueOf(m, s, urb, end, before, chain, ts) && Queued(m, s, urb, end, v, t)
    ensures QueueOf(m, s, urb, end, before, chain + [v], ts + [t])
  {
    hide QmapFrame.ReadHead, Queued;
  }

  /** The queue shows what was there before, and the packets of the buffer. */
  lemma QueueShows(m: Mux, s: seq<byte>, urb: array<byte>, end: nat, before: seq<View>, chain: seq<View>,
                   ts: seq<Taken>, shown: seq<Delivery>)
    requires m.Valid() && end <= |s| == urb.Length && AllSound(m, s, end, ts) && AllValid(chain)
    requires QueueOf(m, s, urb, end, before, chain, ts) && urb[..] == Written(m, s, end, ts)
    requires |shown| == |before| && forall k | 0 <= k < |before| :: chain[k].Shown() == shown[k]
    ensures AllShown(chain) == shown + Results(m, s, end, ts)
  {
    hide QmapFrame.ReadHead, EthHeader, AllShown, Written, Renders;
    forall k | 0 <= k < |ts|
      ensures AllShown(chain)[|before| + k] == Results(m, s, end, ts)[k]
    {
      assert Queued(m, s, urb, end, chain[|before| + k], ts[k]);
    }
  }

  /** Only the bytes from ten in front of the URB to its end are ever written. */
  lemma {:induction false} Outside(m: Mux, s: seq<byte>, end: nat, ts: seq<Taken>, start: nat)
    requires m.Valid() && end <= |s| && AllSound(m, s, end, ts)
    requires start <= end && forall k | 0 <= k < |ts| :: start <= ts[k].at
    ensures forall i | 0 <= i < start - 10 || end <= i < |s| :: Written(m, s, end, ts)[i] == s[i]
  {
    hide QmapFrame.ReadHead, EthHeader;
    if ts != [] {
      Outside(m, s, end, ts[..|ts| - 1], start);
    }
  }

  /** The Ethernet frames of the copying parse of one buffer, as many as there is memory for. */
  ghost function Sent(m: Mux, s: seq<byte>, u: Urb): seq<Delivery>
    requires m.Valid() && u.start + u.count <= |s|
  {
    SplitRegistered(Legacy, m, s[u.start..u.start + u.count]);
    var ref := Split(Legacy, m, s[u.start..u.start + u.count]);
    Ethernets(m, ref.packets[..Granted(ref, u.allocs)])
  }

  ghost function AllSent(m: Mux, inputs: seq<seq<byte>>, urbs: seq<Urb>): seq<Delivery>
    requires m.Valid() && AllFit(inputs, urbs)
  {
    if urbs == [] then []
    else AllSent(m, inputs[..|urbs| - 1], urbs[..|urbs| - 1]) + Sent(m, inputs[|urbs| - 1], urbs[|urbs| - 1])
  }

  /** No frame with more padding than data is reached in the buffer. */
  ghost predicate Harmless(m: Mux, s: seq<byte>, u: Urb)
    requires m.Valid() && u.start + u.count <= |s|
  {
    !Trips(Split(Legacy, m, s[u.start..u.start + u.count]), u.allocs)
  }

  /** So a run of harmless buffers, refused ones included, is handled to its end and carries all packets in order. */
  lemma {:induction false} HarmlessRun(m: Mux, inputs: seq<seq<byte>>, urbs: seq<Urb>)
    requires m.Valid() && AllFit(inputs, urbs)
    requires forall i | 0 <= i < |urbs| :: Harmless(m, inputs[i], urbs[i])
    ensures AllCarried(m, inputs, urbs) == AllSent(m, inputs, urbs)
    ensures forall i | 0 <= i < |urbs| :: StopOn(m, inputs[i], urbs[i]) != Crashed
  {
    hide FollowAll, QmapFrame.Split, Ethernets, Carried, Trips;
    if urbs != [] {
      var n := |urbs| - 1;
      HarmlessRun(m, inputs[..n], urbs[..n]);
      AliasSafeIff(m, inputs[n], urbs[n].start, urbs[n].count, urbs[n].allocs);
      forall i | 0 <= i < |urbs|
        ensures StopOn(m, inputs[i], urbs[i]) != Crashed
      {
        assert i < n ==> StopOn(m, inputs[..n][i], urbs[..n][i]) != Crashed;
      }
    }
  }

  // ---------------------------------------------------------------------------------------
  // The copying receiver

  /** What the copying receiver hands to the stack for an aggregate, and whether it crashes over it. */
  function Copied(d: Dialect, m: Mux, s: seq<byte>, allocs: nat): (r: (seq<Delivery>, bool))
    requires m.Valid()
  {
    SplitRegistered(d, m, s);
    var ref := Split(d, m, s);
    if Trips(ref, allocs) then ([], true) else (Ethernets(m, ref.packets[..Granted(ref, allocs)]), false)
  }

  /** All that it hands over are Ethernet frames with the payloads of the parse. */
  lemma CopiedFrames(d: Dialect, m: Mux, s: seq<byte>, allocs: nat)
    requires m.Valid()
    ensures
      var frames, packets := Copied(d, m, s, allocs).0, Split(d, m, s).packets;
      && |frames| <= |packets|
      && forall k | 0 <= k < |frames| :: EtherFrame(m, frames[k]) && frames[k].dev == packets[k].dev
                                         && frames[k].bytes[14..] == packets[k].payload
  {
    hide QmapFrame.Split, Ethernet, ProtoNamed, Ethernets;
    SplitRegistered(d, m, s);
    SplitNamed(d, m, s);
    var ref, frames := Split(d, m, s), Copied(d, m, s, allocs).0;
    var packets := ref.packets[..Granted(ref, allocs)];
    forall k | 0 <= k < |frames|
      ensures EtherFrame(m, frames[k]) && frames[k].dev == ref.packets[k].dev
              && frames[k].bytes[14..] == ref.packets[k].payload
    {
      hide EtherFrame;
      EthernetsAt(m, packets, k);
      EthernetDev(m, packets[k]);
      assert packets[k] in ref.packets;
      EthernetFields(m, packets[k]);
    }
  }

  lemma EthernetDev(m: Mux, p: Packet)
    requires m.Valid() && m.Registered(p.dev)
    ensures Ethernet(m, p).dev == p.dev
  {
  }

  /**
   The copying receiver (`_rmnet_usb_rx_handler`): it collects the packets of one aggregate in a
   queue of its own and delivers them even when the rest of the aggregate is in error. `beyond` is
   the byte stored behind the aggregate; `allocs` allocations succeed.
   */
  method RmnetRx(m: Mux, qmapVersion: nat, dlMinimumPadding: nat, aggregate: seq<byte>, beyond: byte, allocs: nat)
    returns (delivered: seq<Delivery>, crashed: bool)
    requires m.Valid()
    ensures (delivered, crashed)
            == Copied(Rmnet(if qmapVersion == 9 then dlMinimumPadding else 0, beyond), m, aggregate, allocs)
    ensures forall k | 0 <= k < |delivered| :: EtherFrame(m, delivered[k])
  {
    hide QmapFrame.ReadHead, QmapFrame.Remains, QmapFrame.Split, Ethernet, Ethernets, EtherFrame;
    var d := Rmnet(if qmapVersion == 9 then dlMinimumPadding else 0, beyond);
    var skb, chain, left := aggregate, [], allocs;
    ghost var ref, done := Split(d, m, aggregate), [];
    SplitRegistered(d, m, aggregate);
    RemainsAll(d, m, aggregate);
    assert Ethernets(m, []) == [];
    crashed := false;
    while |skb| > 4
      invariant 0 <= left == allocs - |done|
      invariant Remains(d, m, ref, done, skb) && AllRegistered(m, done) && chain == Ethernets(m, done)
    {
      RemainsEnd(d, m, ref, done, skb);
      var head := ReadHead(d, m, skb);
      if head.Reject? {
        break;
      } else if head.Ip? {
        if left == 0 {
          break;
        } else if head.len < 0 {
          return [], true;
        }
        RemainsIp(d, m, ref, done, skb);
        var packet := Packet(head.dev, head.proto, skb[head.hdr..head.hdr + head.len]);
        EthernetsSnoc(m, done, packet);
        chain, left, done := chain + [Ethernet(m, packet)], left - 1, done + [packet];
      } else {
        RemainsSkip(d, m, ref, done, skb);
      }
      skb := skb[head.adv..];
    }
    RemainsEnd(d, m, ref, done, skb);
    CopiedFrames(d, m, aggregate, allocs);
    return chain, false;
  }

  /**
   The two receivers add the same Ethernet frames for every aggregate without extension headers,
   whatever its headroom, if and only if the copying one does not crash over it.
   */
  lemma SameFramesIff(m: Mux, s: seq<byte>, start: nat, count: nat, allocs: nat, beyond: byte)
    requires m.Valid() && start + count <= |s| && NoExtension(m, s[start..start + count])
    ensures
      var (frames, crashed) := Copied(Rmnet(0, beyond), m, s[start..start + count], allocs);
      !crashed <==> Carried(m, s, start, count, allocs) == frames
                    && FollowAll(m, s, start, count, allocs).stop != Crashed
  {
    hide QmapFrame.Split, QmapFrame.NoExtension, FollowAll, Ethernets, Carried;
    OutcomeOf(m, s, start, count, allocs);
    ReceiversAgree(m, s[start..start + count], beyond);
  }
}

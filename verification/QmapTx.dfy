/**
 Uplink aggregation of the Fibocom WWAN driver (`rmnet_usb_tx_agg` and its work item and timer):
 frames are collected in one buffer under a spin lock, and the buffer is detached by the transmit
 path, or by a work item that a timer schedules.
 */
module QmapTx {
  import opened Bytes
  import opened QmapFrame

  const NSEC_PER_SEC := 1_000_000_000
  const AGG_TIME_LIMIT := 1_000_000
  const AGG_BYPASS_TIME := 10_000_000

  /** `agg_skb`, `agg_count` and `agg_time`. */
  datatype Agg = Agg(skb: Option<seq<byte>>, count: nat, time: int)

  /** The uplink limits of `tx_agg_ctx`. */
  datatype Limits = Limits(datagrams: nat, size: nat)

  /**
   What one locked section observes: the clock, whether the stack announced more packets, whether
   `rmnet_usb_tx_agg_skip` wants the packet sent at once, and whether `alloc_skb` succeeds.
   */
  datatype Seen = Seen(now: int, xmitMore: bool, urgent: bool, gotMemory: bool)

  /** The test `diff.tv_sec > 0 || diff.tv_nsec > limit` on a normalised time difference. */
  predicate Elapsed(now: int, since: int, limit: int) {
    (now - since) / NSEC_PER_SEC > 0 || (now - since) % NSEC_PER_SEC > limit
  }

  /** Unless the clock runs backwards, that is a plain comparison. */
  lemma ElapsedIs(now: int, since: int, limit: int)
    requires since <= now && 0 <= limit < NSEC_PER_SEC
    ensures Elapsed(now, since, limit) <==> now - since > limit
  {
  }

  /** The outcome of one locked section: the new state, a detached buffer, the packet still in hand. */
  datatype Passed = Passed(agg: Agg, detached: Option<seq<byte>>, left: bool)

  /** The locked section of `rmnet_usb_tx_agg`. */
  function Pass(l: Limits, a: Agg, frame: seq<byte>, e: Seen): Passed {
    if a.skb.Some? then
      if |a.skb.value| + |frame| < l.size then
        var skb, count := a.skb.value + frame, a.count + 1;
        if Elapsed(e.now, a.time, AGG_TIME_LIMIT) || count == l.datagrams || (!e.xmitMore && e.urgent)
        then Passed(Agg(None, 0, e.now), Some(skb), false)
        else Passed(Agg(Some(skb), count, a.time), None, false)
      else Passed(Agg(None, 0, e.now), a.skb, true)
    else if Elapsed(e.now, a.time, AGG_BYPASS_TIME) || (!e.xmitMore && e.urgent) || !e.gotMemory
    then Passed(Agg(None, a.count, e.now), Some(frame), false)
    else Passed(Agg(Some(frame), a.count + 1, a.time), None, false)
  }

  /** The locked section of `rmnet_usb_tx_agg_work`. */
  function Flush(a: Agg, now: int): Passed {
    if a.skb.Some? then Passed(Agg(None, 0, now), a.skb, false) else Passed(a, None, false)
  }

  /** The bytes of an optional buffer. */
  function Content(skb: Option<seq<byte>>): seq<byte> {
    if skb.Some? then skb.value else []
  }

  /**
   One locked section loses, duplicates and reorders no byte; a pass that finds no buffer consumes
   the packet, and one that leaves the packet in hand leaves no buffer.
   */
  lemma PassConserves(l: Limits, a: Agg, frame: seq<byte>, e: Seen)
    ensures var r := Pass(l, a, frame, e);
      && Content(r.detached) + Content(r.agg.skb) + (if r.left then frame else []) == Content(a.skb) + frame
      && (r.left <==> a.skb.Some? && |a.skb.value| + |frame| >= l.size)
      && (r.left ==> r.agg.skb.None? && r.detached == a.skb)
      && (r.detached.Some? ==> r.agg.skb.None?)
  {
  }

  /** What a call leaves behind when the packet is no longer in hand. */
  ghost predicate PassedAll(l: Limits, a: Agg, frame: seq<byte>, seen: seq<Seen>, a': Agg, sent: seq<seq<byte>>,
                            sent': seq<seq<byte>>)
    requires |seen| == 2
  {
    if a.skb.Some? && |a.skb.value| + |frame| >= l.size
    then ConsumedBy(l, Agg(None, 0, seen[0].now), frame, seen[1], a', sent + [a.skb.value], sent')
    else ConsumedBy(l, a, frame, seen[0], a', sent, sent')
  }

  /** A locked section that takes the packet: it hands over the buffer with the packet, or keeps it. */
  ghost predicate ConsumedBy(l: Limits, a: Agg, frame: seq<byte>, e: Seen, a': Agg, sent: seq<seq<byte>>,
                             sent': seq<seq<byte>>) {
    var joins := a.skb.Some?;
    var buffer := if joins then a.skb.value + frame else frame;
    var atOnce :=
      || (e.urgent && !e.xmitMore)
      || (if joins then Elapsed(e.now, a.time, 1_000_000) || a.count + 1 == l.datagrams
          else Elapsed(e.now, a.time, 10_000_000) || !e.gotMemory);
    if atOnce then a' == Agg(None, if joins then 0 else a.count, e.now) && sent' == sent + [buffer]
    else a' == Agg(Some(buffer), a.count + 1, a.time) && sent' == sent
  }

  lemma PassOutcome(l: Limits, a: Agg, frame: seq<byte>, e: Seen, sent: seq<seq<byte>>)
    ensures var r := Pass(l, a, frame, e);
      if r.left then r.agg == Agg(None, 0, e.now)
      else ConsumedBy(l, a, frame, e, r.agg, sent, if r.detached.Some? then sent + [r.detached.value] else sent)
  {
  }

  /** Pass `pass` of a call, the state being that of its beginning or the one behind a full buffer. */
  lemma PassTaken(l: Limits, a0: Agg, frame: seq<byte>, seen: seq<Seen>, sent0: seq<seq<byte>>, pass: nat, a: Agg,
                  sent: seq<seq<byte>>)
    requires |seen| == 2 && pass < 2 && Before(l, a0, frame, seen, sent0, pass, a, sent)
    ensures
      var r := Pass(l, a, frame, seen[pass]);
      var sent' := if r.detached.Some? then sent + [r.detached.value] else sent;
      if r.left then pass == 0 && Before(l, a0, frame, seen, sent0, 1, r.agg, sent')
      else PassedAll(l, a0, frame, seen, r.agg, sent0, sent')
  {
    PassConserves(l, a, frame, seen[pass]);
    PassOutcome(l, a, frame, seen[pass], sent);
    hide Pass, ConsumedBy;
  }

  ghost predicate Before(l: Limits, a0: Agg, frame: seq<byte>, seen: seq<Seen>, sent0: seq<seq<byte>>, pass: nat,
                         a: Agg, sent: seq<seq<byte>>)
    requires |seen| == 2
  {
    if pass == 0 then a == a0 && sent == sent0
    else && a0.skb.Some? && |a0.skb.value| + |frame| >= l.size
         && a == Agg(None, 0, seen[0].now) && sent == sent0 + [a0.skb.value]
  }

  lemma Regroup(done: seq<byte>, old': seq<byte>, frame: seq<byte>, out: seq<byte>, new': seq<byte>, rest: seq<byte>)
    requires out + new' + rest == old' + frame
    ensures (done + out) + new' + rest == done + old' + frame
  {
    assert (done + out) + new' + rest == done + (out + new' + rest);
    assert done + old' + frame == done + (old' + frame);
  }

  /** The private data of one multiplexed device, as its transmit path uses it. */
  class Transmitter {
    var limits: Limits
    var agg_skb: Option<seq<byte>>
    var agg_count: nat
    var agg_time: int
    var timerQueued: bool
    var xmitted: seq<seq<byte>>        // buffers given to dev_queue_xmit, in order

    ghost function State(): Agg
      reads this
    {
      Agg(agg_skb, agg_count, agg_time)
    }

    /** The locked section, statement by statement. */
    method LockedSection(frame: seq<byte>, e: Seen) returns (detached: Option<seq<byte>>, left: bool)
      modifies this`agg_skb, this`agg_count, this`agg_time
      ensures Passed(State(), detached, left) == Pass(limits, old(State()), frame, e)
      ensures left <==> old(agg_skb).Some? && |old(agg_skb).value| + |frame| >= limits.size
      ensures left ==> State() == Agg(None, 0, e.now) && detached == old(agg_skb)
      ensures !left ==> ConsumedBy(limits, old(State()), frame, e, State(), [],
                                   if detached.Some? then [detached.value] else [])
    {
      PassConserves(limits, State(), frame, e);
      PassOutcome(limits, State(), frame, e, []);
      hide ConsumedBy;
      detached, left := None, true;
      var ready2send := false;
      if agg_skb.Some? {
        if |agg_skb.value| + |frame| < limits.size {
          agg_skb := Some(agg_skb.value + frame);
          agg_count := agg_count + 1;
          if Elapsed(e.now, agg_time, AGG_TIME_LIMIT) {
            ready2send := true;
          } else if agg_count == limits.datagrams {
            ready2send := true;
          } else if !e.xmitMore {
            ready2send := e.urgent;
          }
          left := false;
        } else {
          ready2send := true;
        }
        if ready2send {
          detached := agg_skb;
          agg_skb := None;
          agg_count := 0;
        }
      } else {
        if Elapsed(e.now, agg_time, AGG_BYPASS_TIME) {
          ready2send := true;
        } else if !e.xmitMore {
          ready2send := e.urgent;
        }
        if !ready2send {
          if e.gotMemory {
            agg_skb := Some(frame);
            agg_count := agg_count + 1;
            left := false;
          } else {
            ready2send := true;
          }
        }
        if ready2send {
          detached := Some(frame);
          left := false;
        }
      }
      if ready2send {
        agg_time := e.now;
      }
      assert detached.Some? ==> [] + [detached.value] == [detached.value];
    }

    /**
     One call of `rmnet_usb_tx_agg` that nothing interrupts. Two observations are enough for its
     loop: a pass that finds no buffer always consumes the packet. All bytes handed over so far,
     followed by the buffer, grow by exactly the frame, and a buffer left behind has its timer set.

     A buffer that has no room for the frame is handed over first. The frame joins the buffer, or
     begins one, and that is handed over at once if the packet is urgent and announced as the last, if
     the last hand-over was too long ago, if the buffer has all its datagrams, or if there is no memory for
     one; and otherwise it stays. `agg_time` is the clock of the last hand-over.
     */
    method TxAgg(frame: seq<byte>, seen: seq<Seen>)
      requires |seen| == 2
      requires limits.datagrams == 1 ==> agg_skb.None?
      modifies this
      ensures limits == old(limits) && Held() == old(Held()) + frame
      ensures agg_skb.Some? && limits.datagrams != 1 ==> timerQueued
      ensures limits.datagrams == 1 ==> State() == old(State()) && xmitted == old(xmitted) + [frame]
      ensures
        var found := old(agg_skb);
        var full := found.Some? && |found.value| + |frame| >= limits.size;
        var joins := found.Some? && !full;
        var e, since := if full then seen[1] else seen[0], if full then seen[0].now else old(agg_time);
        var buffer := if joins then found.value + frame else frame;
        var handedOver := if full then old(xmitted) + [found.value] else old(xmitted);
        var atOnce :=
          || (e.urgent && !e.xmitMore)
          || (if joins then Elapsed(e.now, since, 1_000_000) || old(agg_count) + 1 == limits.datagrams
              else Elapsed(e.now, since, 10_000_000) || !e.gotMemory);
        limits.datagrams != 1 ==>
          if atOnce then
            && agg_skb == None && xmitted == handedOver + [buffer] && agg_time == e.now
            && agg_count == (if found.Some? then 0 else old(agg_count))
          else
            && agg_skb == Some(buffer) && xmitted == handedOver && agg_time == since
            && agg_count == (if full then 1 else old(agg_count) + 1)
    {
      ghost var before := Held();
      if limits.datagrams == 1 {
        Xmit(Some(frame));
        return;
      }
      var left, pass := true, 0;
      while left
        invariant limits == old(limits) && pass <= 2
        invariant left ==> pass < 2 && Before(limits, old(State()), frame, seen, old(xmitted), pass, State(), xmitted)
        invariant !left ==> PassedAll(limits, old(State()), frame, seen, State(), old(xmitted), xmitted)
        invariant Held() + (if left then frame else []) == before + frame
        decreases 2 - pass
      {
        hide Pass, Before, PassedAll;
        ghost var done, agg := Flatten(xmitted), State();
        PassConserves(limits, agg, frame, seen[pass]);
        PassTaken(limits, old(State()), frame, seen, old(xmitted), pass, agg, xmitted);
        var detached;
        detached, left := LockedSection(frame, seen[pass]);
        Xmit(detached);
        Regroup(done, Content(agg.skb), frame, Content(detached), Content(agg_skb), if left then frame else []);
        pass := pass + 1;
      }
      if agg_skb.Some? {
        if !timerQueued {
          timerQueued := true;
        }
      }
    }

    /** All bytes handed to the USB layer so far, followed by the buffer. */
    ghost function Held(): seq<byte>
      reads this
    {
      Flatten(xmitted) + Content(agg_skb)
    }

    method Xmit(skb: Option<seq<byte>>)
      modifies this`xmitted
      ensures Flatten(xmitted) == old(Flatten(xmitted)) + Content(skb)
      ensures xmitted == if skb.Some? then old(xmitted) + [skb.value] else old(xmitted)
    {
      if skb.Some? {
        FlattenSnoc(xmitted, skb.value);
        xmitted := xmitted + [skb.value];
      }
    }

    /** `rmnet_usb_tx_agg_work`: detaches whatever has been collected. */
    method AggWork(now: int)
      modifies this
      ensures limits == old(limits) && timerQueued == old(timerQueued)
      ensures State() == Flush(old(State()), now).agg && agg_skb.None? && Held() == old(Held())
      ensures if old(agg_skb).None? then State() == old(State()) && xmitted == old(xmitted)
              else State() == Agg(None, 0, now) && xmitted == old(xmitted) + [old(agg_skb).value]
    {
      var skb := None;
      if agg_skb.Some? {
        skb := agg_skb;
        agg_skb, agg_count, agg_time := None, 0, now;
      }
      Xmit(skb);
    }

    /**
     `qma_setting_store`, when nothing runs between its writes: the first setting with a datagram limit
     above one takes effect, and none behind it does.
     */
    method SettingStore(datagrams: nat, size: nat)
      modifies this`limits
      ensures limits.datagrams >= old(limits.datagrams)
      ensures old(limits.datagrams) != 1 || datagrams <= 1 ==> limits == old(limits)
      ensures old(limits.datagrams) == 1 && datagrams > 1 ==> limits == Limits(datagrams, size)
      ensures limits == Stored(old(limits), Limits(datagrams, size))
    {
      if limits.datagrams == 1 && datagrams > 1 {
        limits := limits.(datagrams := datagrams);
        limits := limits.(size := size);
      }
    }
  }

  /** The limits behind a call with the setting `l'`. */
  function Stored(l: Limits, l': Limits): Limits {
    if l.datagrams == 1 && l'.datagrams > 1 then l' else l
  }

  function AllStored(l: Limits, settings: seq<Limits>): Limits {
    if settings == [] then l
    else Stored(AllStored(l, settings[..|settings| - 1]), settings[|settings| - 1])
  }

  /** Limits with several datagrams are final, whatever settings follow. */
  lemma {:induction false} SettingsAreFinal(l: Limits, settings: seq<Limits>)
    requires l.datagrams > 1
    ensures AllStored(l, settings) == l
  {
    if settings != [] {
      SettingsAreFinal(l, settings[..|settings| - 1]);
    }
  }

  /** Setting `k` ends up in force if it is the first one that asks for several datagrams. */
  lemma {:induction false} FirstSettingWins(l: Limits, settings: seq<Limits>, k: nat)
    requires l.datagrams == 1 && k < |settings| && settings[k].datagrams > 1
    requires forall j | 0 <= j < k :: settings[j].datagrams <= 1
    ensures AllStored(l, settings) == settings[k]
  {
    var n := |settings| - 1;
    if k < n {
      FirstSettingWins(l, settings[..n], k);
    } else {
      NoSettingYet(l, settings[..n]);
    }
  }

  lemma {:induction false} NoSettingYet(l: Limits, settings: seq<Limits>)
    requires l.datagrams == 1 && forall j | 0 <= j < |settings| :: settings[j].datagrams <= 1
    ensures AllStored(l, settings) == l
  {
    if settings != [] {
      NoSettingYet(l, settings[..|settings| - 1]);
    }
  }
}

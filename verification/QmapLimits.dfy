/**
 Uplink aggregation while a setting takes effect (qmi_wwan_f.c, `qma_setting_store` against
 `rmnet_usb_tx_agg`): when an aggregate can be longer than the size limit in force, or than the
 buffer that was allocated for it.
 */
module QmapLimits {
  import opened Bytes
  import opened QmapFrame
  import opened QmapTx
  import opened QmapSteps

  ghost predicate Reachable(m: Mux, s: Sys)
    requires m.Valid()
  {
    exists states, steps :: Reaches(m, states, steps, s)
  }

  ghost predicate Reaches(m: Mux, states: seq<Sys>, steps: seq<Step>, s: Sys)
    requires m.Valid()
  {
    IsRun(m, states, steps) && states[|steps|] == s
  }

  lemma ReachInitial(m: Mux, s: Sys)
    requires m.Valid() && Initial(s)
    ensures Reachable(m, s)
  {
    assert Reaches(m, [s], [], s);
  }

  lemma ReachNext(m: Mux, s: Sys, step: Step)
    requires m.Valid() && Reachable(m, s) && Enabled(m, s, step)
    ensures Reachable(m, Next(m, s, step))
  {
    hide Initial, Enabled, Next;
    var states, steps :| Reaches(m, states, steps, s);
    var s' := Next(m, s, step);
    var longer, more := states + [s'], steps + [step];
    forall i | 0 <= i < |more|
      ensures Enabled(m, longer[i], more[i]) && longer[i + 1] == Next(m, longer[i], more[i])
    {
      if i < |steps| {
        assert longer[i] == states[i] && longer[i + 1] == states[i + 1] && more[i] == steps[i];
      }
    }
    assert Reaches(m, longer, more, s');
  }

  lemma ReachableInv(m: Mux, s: Sys)
    requires m.Valid() && Reachable(m, s)
    ensures Inv(m, s)
  {
    hide IsRun, Inv;
    var states, steps :| Reaches(m, states, steps, s);
    assert |states| == |steps| + 1 by { RunLength(m, states, steps); }
    RunKeeps(m, states, steps, |steps|);
  }

  lemma RunLength(m: Mux, states: seq<Sys>, steps: seq<Step>)
    requires m.Valid() && IsRun(m, states, steps)
    ensures |states| == |steps| + 1
  {
  }

  /** An aggregate of several frames in the buffer is below the size limit in force. */
  predicate BelowLimit(s: Sys) {
    s.agg.count > 1 && s.agg.skb.Some? ==> |s.agg.skb.value| < s.limits.size
  }

  /** The locked section copies a frame behind others, beyond the size the buffer was allocated with. */
  predicate AppendOverruns(s: Sys) {
    s.pc.Locking? && s.pc.o.Fits() && s.agg.skb.Some?
    && var n := |s.agg.skb.value| + |Frame(s.pc.o)|;
       s.capacity < n < s.limits.size
  }

  /** As long as the setting has not gone through, aggregates are below the limit and inside their buffers. */
  lemma RightBefore(m: Mux, s: Sys)
    requires m.Valid() && Reachable(m, s) && (s.storing.Some? || s.limits.datagrams == 1)
    ensures BelowLimit(s) && !AppendOverruns(s)
  {
    hide Frame, BufferOk, Conserved, InHand;
    ReachableInv(m, s);
    BoundedThen(m, s);
  }

  lemma BoundedThen(m: Mux, s: Sys)
    requires m.Valid() && BufferOk(m, s.limits, s.agg, s.current)
    ensures Bounded(s.limits, s.agg)
  {
  }

  /**
   With the limits of a setting in force, an aggregate of several frames can be at or above the size
   limit if and only if that is below the initial one and more than two datagrams are allowed.
   */
  lemma AboveLimitIff(m: Mux, l: Limits)
    requires m.Valid() && l.datagrams > 1 && exists dev :: m.Registered(dev)
    ensures (exists s: Sys :: Reachable(m, s) && s.limits == l && s.storing.None? && !BelowLimit(s))
            <==> l.size < START_SIZE && l.datagrams > 2
  {
    hide Reachable, Frame, Inv, BufferOk;
    forall s: Sys | Reachable(m, s) && s.limits == l && s.storing.None? && !BelowLimit(s)
      ensures l.size < START_SIZE && l.datagrams > 2
    {
      ReachableInv(m, s);
      InvBounded(m, s);
    }
    if l.size < START_SIZE && l.datagrams > 2 {
      var dev :| m.Registered(dev);
      var s := LongAggregate(m, dev, l);
    }
  }

  lemma InvBounded(m: Mux, s: Sys)
    requires m.Valid() && Inv(m, s)
    ensures Bounded(s.limits, s.agg) && SettingOk(s)
  {
  }

  /**
   With the limits of a setting in force, the driver can copy a frame beyond the end of a buffer that
   was allocated for fewer bytes if and only if the size limit is above the initial one by two or more.
   */
  lemma OverrunIff(m: Mux, l: Limits)
    requires m.Valid() && l.datagrams > 1 && exists dev :: m.Registered(dev)
    ensures (exists s: Sys :: Reachable(m, s) && s.limits == l && AppendOverruns(s)) <==> l.size > START_SIZE + 1
  {
    hide Reachable, Frame, Inv;
    forall s: Sys | Reachable(m, s) && s.limits == l && AppendOverruns(s)
      ensures l.size > START_SIZE + 1
    {
      ReachableInv(m, s);
      InvBounded(m, s);
    }
    if l.size > START_SIZE + 1 {
      var dev :| m.Registered(dev);
      var s := OutgrownBuffer(m, dev, l);
    }
  }

  const LONGEST_FRAME := 1508      // a payload of 1500 bytes behind the longer header

  /** The locked section puts the frame into a new buffer that is too small for it. */
  predicate AllocationOverruns(s: Sys, e: Seen) {
    && s.pc.Locking? && s.pc.o.Fits() && s.agg.skb.None?
    && Pass(s.limits, s.agg, Frame(s.pc.o), e).agg.skb.Some?
    && |Frame(s.pc.o)| > s.limits.size
  }

  lemma FrameBound(o: Outgoing)
    requires o.Fits()
    ensures |Frame(o)| <= LONGEST_FRAME
  {
    FrameFields(o, []);
    assert Frame(o) + [] == Frame(o);
  }

  /** With the limits `l`, that can happen if and only if the size limit is below the longest frame. */
  lemma AllocationOverrunIff(m: Mux, l: Limits)
    requires m.Valid() && l.datagrams > 1 && exists dev :: m.Registered(dev)
    ensures (exists s: Sys, e: Seen :: Reachable(m, s) && s.limits == l && AllocationOverruns(s, e))
            <==> l.size < LONGEST_FRAME
  {
    hide Reachable, Frame, Inv, Elapsed;
    forall s: Sys, e: Seen | Reachable(m, s) && s.limits == l && AllocationOverruns(s, e)
      ensures l.size < LONGEST_FRAME
    {
      FrameBound(s.pc.o);
    }
    if l.size < LONGEST_FRAME {
      var dev :| m.Registered(dev);
      NotElapsed();
      var o := LongestPacket(dev);
      var s := Start();
      ReachInitial(m, s);
      s := Reached(m, s, Store(l.datagrams, l.size));
      s := Reached(m, s, StoreSize);
      s := Reached(m, s, Submit(o));
      s := Reached(m, s, TestLimit);
      assert AllocationOverruns(s, QUIET);
    }
  }

  function LongestPacket(dev: nat): (o: Outgoing)
    requires dev < DEVICES
    ensures o.Fits() && |Frame(o)| == LONGEST_FRAME && o.dev == dev && o.payload != [] && o.payload[0] == 0x45
  {
    Outgoing(dev, [0x45] + seq(1499, _ => 0), true, [])
  }

  // ---------------------------------------------------------------------------------------
  // Runs that get there

  /** A packet whose frame has `n` bytes. */
  function PacketOfSize(dev: nat, n: nat): (o: Outgoing)
    requires dev < DEVICES && 4 < n <= 1504
    ensures o.Fits() && |Frame(o)| == n && o.dev == dev && o.payload != [] && o.payload[0] == 0x45
  {
    Outgoing(dev, [0x45] + seq(n - 5, _ => 0), false, [])
  }

  const QUIET := Seen(0, true, false, true)      // no time has passed, more packets are announced

  lemma NotElapsed()
    ensures !Elapsed(0, 0, AGG_TIME_LIMIT) && !Elapsed(0, 0, AGG_BYPASS_TIME)
  {
  }

  function Start(): (s: Sys)
    ensures Initial(s)
  {
    Sys(Limits(1, START_SIZE), None, Agg(None, 0, 0), 0, Idle, false, false, false, false, [], [], [], [])
  }

  /** The first frame is in the buffer, its timer is set, and the settings call has written one limit. */
  predicate Halfway(s: Sys, l: Limits, frame: seq<byte>) {
    && s.limits == Limits(l.datagrams, START_SIZE) && s.storing == Some(l.size)
    && s.agg == Agg(Some(frame), 1, 0) && s.capacity == START_SIZE && s.pc.Idle? && s.timerQueued
  }

  lemma HalfwayReached(m: Mux, l: Limits, o: Outgoing) returns (s: Sys)
    requires m.Valid() && l.datagrams > 1 && Sendable(m, o)
    ensures Reachable(m, s) && Halfway(s, l, Frame(o))
  {
    hide Reachable, Frame, Elapsed, AllSendable;
    NotElapsed();
    s := Start();
    ReachInitial(m, s);
    s := Reached(m, s, Store(l.datagrams, l.size));
    s := Reached(m, s, Submit(o));
    s := Reached(m, s, TestLimit);
    s := Reached(m, s, Locked(QUIET));
    s := Reached(m, s, ReadBuffer);
    s := Reached(m, s, ReadTimer);
    s := Reached(m, s, StartTimer);
  }

  lemma Reached(m: Mux, s: Sys, step: Step) returns (s': Sys)
    requires m.Valid() && Reachable(m, s) && Enabled(m, s, step)
    ensures s' == Next(m, s, step) && Reachable(m, s')
  {
    s' := Next(m, s, step);
    ReachNext(m, s, step);
  }

  /** Two frames of together 1499 bytes are collected before the smaller size limit is written. */
  lemma LongAggregate(m: Mux, dev: nat, l: Limits) returns (s: Sys)
    requires m.Valid() && m.Registered(dev) && l.datagrams > 2 && l.size < START_SIZE
    ensures Reachable(m, s) && s.limits == l && s.storing.None? && !BelowLimit(s)
  {
    hide Reachable, Frame, Elapsed;
    NotElapsed();
    var a, b := PacketOfSize(dev, 749), PacketOfSize(dev, 750);
    s := HalfwayReached(m, l, a);
    s := Reached(m, s, Submit(b));
    s := Reached(m, s, TestLimit);
    s := Reached(m, s, Locked(QUIET));
    s := Reached(m, s, StoreSize);
  }

  /** One frame is in a buffer of 1500 bytes when the larger size limit is written; another of 751 bytes follows. */
  lemma OutgrownBuffer(m: Mux, dev: nat, l: Limits) returns (s: Sys)
    requires m.Valid() && m.Registered(dev) && l.datagrams > 1 && l.size > START_SIZE + 1
    ensures Reachable(m, s) && s.limits == l && AppendOverruns(s)
  {
    hide Reachable, Frame, Elapsed;
    var a, b := PacketOfSize(dev, 750), PacketOfSize(dev, 751);
    s := HalfwayReached(m, l, a);
    s := Reached(m, s, StoreSize);
    s := Reached(m, s, Submit(b));
    s := Reached(m, s, TestLimit);
  }
}

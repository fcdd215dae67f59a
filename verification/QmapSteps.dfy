/**
 The transmit path, the timer, the work item and the settings call of one multiplexed device as
 interleaved steps. A step is a locked section, or one unlocked access to shared state. The
 network stack serialises the transmit calls of a device, so there is one transmit at a time. The
 settings call holds the lock of the real device, which keeps other settings calls out but not the
 transmit path of the multiplexed one: its two writes are two steps. A locked section reads the size
 limit once, and the datagram limit never changes any more when it does, so a write that falls into
 a locked section has the effect of one behind it.
 */
module QmapSteps {
  import opened Bytes
  import opened QmapFrame
  import opened QmapTx

  /** Where the transmit call is. */
  datatype Pc =
    | Idle
    | Enter(o: Outgoing)                // before the test for a datagram limit of one
    | Direct(o: Outgoing)               // that test succeeded
    | Locking(o: Outgoing, pass: nat)   // before the lock, `pass` times
    | Arm                               // unlocked, before reading agg_skb
    | ArmCheck                          // read a buffer, before hrtimer_is_queued
    | ArmStart                          // before hrtimer_start

  const START_SIZE := 1500     // ul_data_aggregation_max_size before any setting

  /**
   The shared state: `storing` is the size that a settings call has yet to write, `capacity` the size
   that was asked for when the buffer was allocated. It is followed by its history: the packets
   accepted into a buffer or sent directly, the buffers detached under the lock, the packets in each
   of those, and those in the current one.
   */
  datatype Sys = Sys(
    limits: Limits, storing: Option<nat>, agg: Agg, capacity: nat, pc: Pc,
    timerQueued: bool, callback: bool, workPending: bool, workRunning: bool,
    accepted: seq<Outgoing>, detached: seq<seq<byte>>, groups: seq<seq<Outgoing>>, current: seq<Outgoing>)

  datatype Step =
    | Submit(o: Outgoing)               // the stack calls the transmit function
    | TestLimit
    | SendDirect
    | Locked(e: Seen)
    | ReadBuffer
    | ReadTimer
    | StartTimer
    | TimerExpires
    | TimerCallback                     // schedule_work
    | WorkStarts
    | WorkLocked(now: int)
    | Store(datagrams: nat, size: nat)  // the settings call tests and writes the datagram limit
    | StoreSize                         // and then the size limit

  predicate Enabled(m: Mux, s: Sys, step: Step)
    requires m.Valid()
  {
    match step
    case Submit(o) => s.pc.Idle? && Sendable(m, o)
    case TestLimit => s.pc.Enter?
    case SendDirect => s.pc.Direct? && s.pc.o.Fits()
    case Locked(_) => s.pc.Locking? && s.pc.o.Fits()
    case ReadBuffer => s.pc.Arm?
    case ReadTimer => s.pc.ArmCheck?
    case StartTimer => s.pc.ArmStart?
    case TimerExpires => s.timerQueued && !s.callback
    case TimerCallback => s.callback
    case WorkStarts => s.workPending && !s.workRunning
    case WorkLocked(_) => s.workRunning
    case Store(_, _) => s.storing.None?
    case StoreSize => s.storing.Some?
  }

  function Next(m: Mux, s: Sys, step: Step): Sys
    requires m.Valid() && Enabled(m, s, step)
  {
    match step
    case Submit(o) => s.(pc := Enter(o))
    case TestLimit => s.(pc := if s.limits.datagrams == 1 then Direct(s.pc.o) else Locking(s.pc.o, 1))
    case SendDirect =>
      s.(pc := Idle, accepted := s.accepted + [s.pc.o],
         detached := s.detached + [Frame(s.pc.o)], groups := s.groups + [[s.pc.o]])
    case Locked(e) => AfterPass(s, Pass(s.limits, s.agg, Frame(s.pc.o), e))
    case ReadBuffer => s.(pc := if s.agg.skb.Some? then ArmCheck else Idle)
    case ReadTimer => s.(pc := if s.timerQueued then Idle else ArmStart)
    case StartTimer => s.(pc := Idle, timerQueued := true)
    case TimerExpires => s.(timerQueued := false, callback := true)
    case TimerCallback => s.(callback := false, workPending := true)
    case WorkStarts => s.(workPending := false, workRunning := true)
    case WorkLocked(now) =>
      var r := Flush(s.agg, now);
      Detach(s, r.detached).(agg := r.agg, workRunning := false)
    case Store(datagrams, size) =>
      if s.limits.datagrams == 1 && datagrams > 1
      then s.(limits := s.limits.(datagrams := datagrams), storing := Some(size)) else s
    case StoreSize => s.(limits := s.limits.(size := s.storing.value), storing := None)
  }

  /** Records a detached buffer, which holds the packets collected so far. */
  function Detach(s: Sys, skb: Option<seq<byte>>): Sys {
    if skb.None? then s
    else s.(detached := s.detached + [skb.value], groups := s.groups + [s.current], current := [])
  }

  /** A pass takes the packet in, unless it is left in hand, and then detaches what it has to. */
  function AfterPass(s: Sys, r: Passed): Sys
    requires s.pc.Locking?
  {
    var o := s.pc.o;
    var took := if r.left then s else s.(accepted := s.accepted + [o], current := s.current + [o]);
    Detach(took, r.detached).(agg := r.agg, pc := if r.left then Locking(o, s.pc.pass + 1) else Arm,
                              capacity := if s.agg.skb.None? then s.limits.size else s.capacity)
  }

  predicate Initial(s: Sys) {
    && s.limits == Limits(1, START_SIZE) && s.storing.None? && s.agg.skb.None? && s.agg.count == 0 && s.pc.Idle?
    && !s.timerQueued && !s.callback && !s.workPending && !s.workRunning
    && s.accepted == [] && s.detached == [] && s.groups == [] && s.current == []
  }

  // ---------------------------------------------------------------------------------------
  // What every reachable state satisfies

  /** Somebody will still look after the buffer. */
  predicate Attended(s: Sys) {
    || s.timerQueued || s.callback || s.workPending || s.workRunning
    || s.pc.Arm? || s.pc.ArmCheck? || s.pc.ArmStart?
  }

  /**
   The buffer and its counter: null together, below the datagram limit, and with several frames below
   the size limit or the one before any setting. A limit of one means no buffer.
   */
  predicate Bounded(l: Limits, agg: Agg) {
    && (agg.skb.None? <==> agg.count == 0)
    && l.datagrams >= 1
    && (l.datagrams == 1 ==> agg.skb.None?)
    && (l.datagrams > 1 ==> agg.count < l.datagrams)
    && (agg.count > 1 ==> |agg.skb.value| < l.size || |agg.skb.value| < START_SIZE)
  }

  /** The buffer holds as many frames as counted, those of the packets in it. */
  predicate BufferOk(m: Mux, l: Limits, agg: Agg, current: seq<Outgoing>)
    requires m.Valid()
  {
    && Bounded(l, agg)
    && agg.count == |current|
    && AllSendable(m, current)
    && Content(agg.skb) == Flatten(Frames(m, current))
  }

  /** A detached buffer is a concatenation of whole frames, of at least one packet. */
  predicate WholeFrames(m: Mux, group: seq<Outgoing>, bytes: seq<byte>)
    requires m.Valid()
  {
    group != [] && AllSendable(m, group) && bytes == Flatten(Frames(m, group))
  }

  /** The detached buffers and the current one hold the accepted packets, in order. */
  predicate Conserved(m: Mux, accepted: seq<Outgoing>, detached: seq<seq<byte>>, groups: seq<seq<Outgoing>>,
                      current: seq<Outgoing>)
    requires m.Valid()
  {
    && |groups| == |detached|
    && (forall i | 0 <= i < |groups| :: WholeFrames(m, groups[i], detached[i]))
    && accepted == Flatten(groups) + current
  }

  /** The packet in hand, and the bound of two on the passes. */
  predicate InHand(m: Mux, s: Sys)
    requires m.Valid()
  {
    match s.pc
    case Enter(o) => Sendable(m, o)
    case Direct(o) => Sendable(m, o) && s.agg.skb.None?
    case Locking(o, pass) =>
      Sendable(m, o) && s.limits.datagrams > 1 && (pass == 1 || (pass == 2 && s.agg.skb.None?))
    case _ => true
  }

  /** The size limit is the initial one until a settings call is through; the buffer has its old or its new size. */
  predicate SettingOk(s: Sys) {
    && (s.limits.datagrams == 1 || s.storing.Some? ==> s.limits.size == START_SIZE)
    && (s.limits.datagrams == 1 ==> s.storing.None?)
    && (s.agg.skb.Some? ==> s.capacity == s.limits.size || s.capacity == START_SIZE)
  }

  predicate Inv(m: Mux, s: Sys)
    requires m.Valid()
  {
    && SettingOk(s)
    && BufferOk(m, s.limits, s.agg, s.current)
    && Conserved(m, s.accepted, s.detached, s.groups, s.current)
    && InHand(m, s)
    && (s.agg.skb.Some? ==> Attended(s))
  }

  lemma {:induction false} FramesSnoc(m: Mux, os: seq<Outgoing>, o: Outgoing)
    requires m.Valid() && AllSendable(m, os) && Sendable(m, o)
    ensures AllSendable(m, os + [o])
    ensures Flatten(Frames(m, os + [o])) == Flatten(Frames(m, os)) + Frame(o)
  {
    hide Frame;
    if os == [] {
      assert os + [o] == [o];
      assert Frames(m, [o]) == [Frame(o)] + Frames(m, []);
      assert Flatten([Frame(o)]) == Frame(o) + Flatten([]);
    } else {
      assert (os + [o])[1..] == os[1..] + [o];
      FramesSnoc(m, os[1..], o);
      assert Flatten(Frames(m, os + [o])) == Frame(os[0]) + Flatten(Frames(m, os[1..] + [o]));
    }
  }

  lemma DetachKeeps(m: Mux, accepted: seq<Outgoing>, detached: seq<seq<byte>>, groups: seq<seq<Outgoing>>,
                    current: seq<Outgoing>, bytes: seq<byte>)
    requires m.Valid() && Conserved(m, accepted, detached, groups, current) && WholeFrames(m, current, bytes)
    ensures Conserved(m, accepted, detached + [bytes], groups + [current], [])
  {
    hide WholeFrames;
    FlattenSnoc(groups, current);
  }

  lemma AcceptKeeps(m: Mux, accepted: seq<Outgoing>, detached: seq<seq<byte>>, groups: seq<seq<Outgoing>>,
                    current: seq<Outgoing>, o: Outgoing)
    requires m.Valid() && Conserved(m, accepted, detached, groups, current)
    ensures Conserved(m, accepted + [o], detached, groups, current + [o])
  {
    hide WholeFrames;
    assert Flatten(groups) + current + [o] == Flatten(groups) + (current + [o]);
  }

  /** The packets in the buffer after a pass over `o`, before any detachment. */
  function Taken(r: Passed, current: seq<Outgoing>, o: Outgoing): seq<Outgoing> {
    if r.left then current else current + [o]
  }

  lemma PassBounded(l: Limits, a: Agg, frame: seq<byte>, e: Seen)
    requires Bounded(l, a) && l.datagrams > 1
    ensures
      var r := Pass(l, a, frame, e);
      && Bounded(l, r.agg)
      && r.agg.count == (if r.detached.Some? then 0 else a.count + 1)
      && (r.detached.Some? ==> Content(r.detached) == Content(a.skb) + (if r.left then [] else frame))
      && (r.detached.None? ==> Content(r.agg.skb) == Content(a.skb) + frame && !r.left)
      && (r.left ==> a.skb.Some?)
  {
    hide Elapsed;
  }

  lemma PassBuffer(m: Mux, l: Limits, a: Agg, current: seq<Outgoing>, o: Outgoing, e: Seen)
    requires m.Valid() && BufferOk(m, l, a, current) && Sendable(m, o) && l.datagrams > 1
    ensures
      var r := Pass(l, a, Frame(o), e);
      && (r.detached.Some? ==> WholeFrames(m, Taken(r, current, o), r.detached.value))
      && BufferOk(m, l, r.agg, if r.detached.Some? then [] else Taken(r, current, o))
  {
    assert Frames(m, []) == [];
    hide Frame, Frames, Pass, AllSendable;
    PassBounded(l, a, Frame(o), e);
    FramesSnoc(m, current, o);
  }

  lemma PassKeeps(m: Mux, s: Sys, e: Seen)
    requires m.Valid() && Inv(m, s) && Enabled(m, s, Locked(e))
    ensures Inv(m, Next(m, s, Locked(e)))
  {
    hide Frame, Frames, Conserved, Pass, BufferOk, WholeFrames;
    var o := s.pc.o;
    var r := Pass(s.limits, s.agg, Frame(o), e);
    PassConserves(s.limits, s.agg, Frame(o), e);
    PassBuffer(m, s.limits, s.agg, s.current, o, e);
    if !r.left {
      AcceptKeeps(m, s.accepted, s.detached, s.groups, s.current, o);
    }
    if r.detached.Some? {
      var accepted := if r.left then s.accepted else s.accepted + [o];
      DetachKeeps(m, accepted, s.detached, s.groups, Taken(r, s.current, o), r.detached.value);
    }
  }

  lemma DirectKeeps(m: Mux, s: Sys)
    requires m.Valid() && Inv(m, s) && Enabled(m, s, SendDirect)
    ensures Inv(m, Next(m, s, SendDirect))
  {
    assert Frames(m, []) == [];
    hide Frame, Frames, Conserved, WholeFrames;
    var o := s.pc.o;
    assert s.current == [];
    FramesSnoc(m, [], o);
    assert [] + [o] == [o];
    AcceptKeeps(m, s.accepted, s.detached, s.groups, [], o);
    DetachKeeps(m, s.accepted + [o], s.detached, s.groups, [o], Frame(o));
  }

  lemma StepKeeps(m: Mux, s: Sys, step: Step)
    requires m.Valid() && Inv(m, s) && Enabled(m, s, step)
    ensures Inv(m, Next(m, s, step))
  {
    assert Frames(m, []) == [];
    hide Frame, Frames, Conserved, Pass;
    match step
    case Locked(e) => PassKeeps(m, s, e);
    case SendDirect => DirectKeeps(m, s);
    case WorkLocked(_) =>
      if s.agg.skb.Some? {
        DetachKeeps(m, s.accepted, s.detached, s.groups, s.current, s.agg.skb.value);
      }
    case _ =>
  }

  /** A run: states joined by enabled steps, from an initial one. */
  ghost predicate IsRun(m: Mux, states: seq<Sys>, steps: seq<Step>)
    requires m.Valid()
  {
    && |states| == |steps| + 1 && Initial(states[0])
    && forall i | 0 <= i < |steps| :: Enabled(m, states[i], steps[i]) && states[i + 1] == Next(m, states[i], steps[i])
  }

  /** Every state of every run satisfies the invariant: no buffer is stranded, no frame lost. */
  lemma {:induction false} RunKeeps(m: Mux, states: seq<Sys>, steps: seq<Step>, i: nat)
    requires m.Valid() && IsRun(m, states, steps) && i < |states|
    ensures Inv(m, states[i])
  {
    if i == 0 {
      assert Frames(m, []) == [];
    } else {
      RunKeeps(m, states, steps, i - 1);
      StepKeeps(m, states[i - 1], steps[i - 1]);
    }
  }

  /**
   End to end: whatever the interleaving, splitting the detached buffers in detachment order gives
   back the accepted packets, in order, up to those still in the current buffer.
   */
  lemma PacketsArriveInOrder(m: Mux, states: seq<Sys>, steps: seq<Step>, i: nat, beyond: byte)
    requires m.Valid() && IsRun(m, states, steps) && i < |states|
    ensures
      var s := states[i];
      && |s.groups| == |s.detached|
      && s.accepted == Flatten(s.groups) + s.current
      && forall k | 0 <= k < |s.detached| ::
           && AllSendable(m, s.groups[k])
           && Split(Rmnet(0, beyond), m, s.detached[k]) == Parse(Packets(m, s.groups[k]), Done)
  {
    RunKeeps(m, states, steps, i);
    hide Split, Frames, Frame, Packets;
    forall k | 0 <= k < |states[i].detached|
      ensures AllSendable(m, states[i].groups[k])
      ensures Split(Rmnet(0, beyond), m, states[i].detached[k]) == Parse(Packets(m, states[i].groups[k]), Done)
    {
      SplitOfAggregate(Rmnet(0, beyond), m, states[i].groups[k]);
    }
  }

  // ---------------------------------------------------------------------------------------
  // Progress

  function Weight(pc: Pc): nat {
    match pc
    case Idle => 0
    case Direct(_) => 1
    case ArmStart => 5
    case ArmCheck => 6
    case Arm => 7
    case Locking(_, pass) => if pass >= 2 then 8 else 9
    case Enter(_) => 10
  }

  /** How many steps the activity under way can still take. */
  function Rank(s: Sys): nat {
    Weight(s.pc) + (if s.timerQueued then 4 else 0) + (if s.callback then 3 else 0)
    + (if s.workPending then 2 else 0) + (if s.workRunning then 1 else 0)
  }

  /** Steps that the transmit call, the timer and the work item take on their own. */
  predicate Internal(step: Step) {
    !step.Submit? && !step.Store? && !step.StoreSize?
  }

  /** Without new packets, all activity ends within twenty steps, however it is scheduled. */
  lemma InternalStepsEnd(m: Mux, s: Sys, step: Step)
    requires m.Valid() && Inv(m, s) && Enabled(m, s, step) && Internal(step)
    ensures Rank(Next(m, s, step)) < Rank(s) <= 20
  {
    hide Frame, Frames, Pass;
    if step.Locked? {
      PassConserves(s.limits, s.agg, Frame(s.pc.o), step.e);
    }
  }

  /** A buffer that holds packets is never stuck: some internal step is enabled. */
  lemma NeverStranded(m: Mux, s: Sys) returns (step: Step)
    requires m.Valid() && Inv(m, s) && (s.agg.skb.Some? || s.pc != Idle)
    ensures Internal(step) && Enabled(m, s, step)
  {
    hide Frame, Frames;
    step := match s.pc
      case Enter(_) => TestLimit
      case Direct(_) => SendDirect
      case Locking(_, _) => Locked(Seen(0, false, false, false))
      case Arm => ReadBuffer
      case ArmCheck => ReadTimer
      case ArmStart => StartTimer
      case Idle =>
        if s.workRunning then WorkLocked(0)
        else if s.workPending then WorkStarts
        else if s.callback then TimerCallback
        else TimerExpires;
  }

  /** Internal steps only, one after the other. */
  ghost predicate InternalRun(m: Mux, states: seq<Sys>, steps: seq<Step>)
    requires m.Valid()
  {
    && |states| == |steps| + 1
    && forall i | 0 <= i < |steps| ::
         && Internal(steps[i]) && Enabled(m, states[i], steps[i])
         && states[i + 1] == Next(m, states[i], steps[i])
  }

  lemma {:induction false} InternalRunKeeps(m: Mux, states: seq<Sys>, steps: seq<Step>, i: nat)
    requires m.Valid() && InternalRun(m, states, steps) && Inv(m, states[0]) && i < |states|
    ensures Inv(m, states[i]) && Rank(states[i]) + i <= Rank(states[0]) <= 20
  {
    hide Inv, Next, Enabled, Rank;
    if i == 0 {
      RankBounded(m, states[0]);
    } else {
      InternalRunKeeps(m, states, steps, i - 1);
      StepKeeps(m, states[i - 1], steps[i - 1]);
      InternalStepsEnd(m, states[i - 1], steps[i - 1]);
    }
  }

  lemma RankBounded(m: Mux, s: Sys)
    requires m.Valid() && Inv(m, s)
    ensures Rank(s) <= 20
  {
  }

  /**
   Without new packets every run has at most twenty steps, however they are scheduled; and when it
   cannot go on, the buffer is empty, no call is under way, and every accepted packet is in a detached
   buffer, in order.
   */
  lemma QuietRunsEmpty(m: Mux, states: seq<Sys>, steps: seq<Step>)
    requires m.Valid() && InternalRun(m, states, steps) && Inv(m, states[0])
    ensures |steps| <= 20
    ensures
      var s := states[|steps|];
      (forall step | Internal(step) :: !Enabled(m, s, step)) ==>
        s.agg.skb.None? && s.pc == Idle && s.accepted == Flatten(s.groups)
  {
    hide Enabled, Frames, Frame, Next, WholeFrames;
    InternalRunKeeps(m, states, steps, |steps|);
    var s := states[|steps|];
    if s.agg.skb.Some? || s.pc != Idle {
      var step := NeverStranded(m, s);
    } else {
      assert s.accepted == Flatten(s.groups) + s.current;
    }
  }
}

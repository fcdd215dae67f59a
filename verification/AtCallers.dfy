/**
 Several threads that send AT commands over one channel (atchannel.c, `at_send_command_full_nolock`):
 each holds the mutex except while it waits, and all share one pending response. What a response
 consists of is the matter of `AtCommand`; here it is only whose command it belongs to.
 */
module AtCallers {
  import opened Bytes

  /** The caller whose command was given the response that `handed` names. */
  datatype Handed = Handed(caller: nat, owner: nat)

  datatype Sys = Sys(
    pending: Option<nat>,       // whose command sp_response belongs to, if there is one
    final: bool,                // whether it has its final response
    closed: bool,               // s_readerClosed
    waiting: set<nat>,          // the callers that wait
    handed: seq<Handed>,        // what callers have been given
    crashed: bool)              // sp_response was used when there was none

  datatype Step =
    | Send(caller: nat, accepted: bool)     // take the mutex and send a command, which the device accepts or not
    | FinalLine                             // the reader takes in a final response
    | Close                                 // the channel is closed
    | Wake(caller: nat)                     // a wait ends for any reason but its time limit
    | TimeOut(caller: nat)                  // a wait runs into its time limit

  predicate Possible(s: Sys, step: Step) {
    && !s.crashed
    && match step
       case Send(caller, _) => caller !in s.waiting
       case Wake(caller) => caller in s.waiting
       case TimeOut(caller) => caller in s.waiting
       case _ => true
  }

  function Next(s: Sys, step: Step): Sys
    requires Possible(s, step)
  {
    match step
    case Send(caller, accepted) =>
      if s.pending.Some? || s.closed || !accepted then Cleared(s)
      else s.(pending := Some(caller), final := false, waiting := s.waiting + {caller})
    case FinalLine => if s.pending.Some? then s.(final := true) else s
    case Close => s.(closed := true)
    case Wake(caller) =>
      // the loop looks at the final response of whatever is pending
      if s.pending.None? then s.(crashed := true)
      else if !s.final && !s.closed then s
      else Cleared(s).(waiting := s.waiting - {caller}, handed := s.handed + [Handed(caller, s.pending.value)])
    case TimeOut(caller) => Cleared(s).(waiting := s.waiting - {caller})
  }

  /** `clearPendingCommand`, whoever the pending command belongs to. */
  function Cleared(s: Sys): Sys {
    s.(pending := None, final := false)
  }

  const START := Sys(None, false, false, {}, [], false)

  /** A caller has crashed, or was given the response to another caller's command. */
  ghost predicate Failed(s: Sys) {
    s.crashed || exists k | 0 <= k < |s.handed| :: s.handed[k].caller != s.handed[k].owner
  }

  /** A caller waits, and what is pending is not its command. */
  ghost predicate Exposed(s: Sys) {
    exists c | c in s.waiting :: s.pending != Some(c)
  }

  lemma SafeKept(s: Sys, step: Step)
    requires Possible(s, step) && !Failed(s) && !Exposed(s) && (step.Send? ==> s.waiting == {})
    ensures !Failed(Next(s, step)) && !Exposed(Next(s, step))
  {
  }

  // ---------------------------------------------------------------------------------------
  // What can follow

  predicate Continues(s: Sys, steps: seq<Step>)
    decreases |steps|
  {
    steps != [] ==> Possible(s, steps[0]) && Continues(Next(s, steps[0]), steps[1..])
  }

  function Run(s: Sys, steps: seq<Step>): Sys
    requires Continues(s, steps)
    decreases |steps|
  {
    if steps == [] then s else Run(Next(s, steps[0]), steps[1..])
  }

  predicate NoSend(steps: seq<Step>) {
    forall k | 0 <= k < |steps| :: !steps[k].Send?
  }

  lemma {:induction false} NothingNew(s: Sys, steps: seq<Step>)
    requires Continues(s, steps) && s.closed
    ensures Run(s, steps).pending == None || Run(s, steps).pending == s.pending
    decreases |steps|
  {
    if steps != [] {
      NothingNew(Next(s, steps[0]), steps[1..]);
    }
  }

  /** Once the channel has closed no further command becomes the pending one, whatever follows. */
  lemma CloseIsFinal(s: Sys, steps: seq<Step>)
    requires Possible(s, Close) && Continues(Next(s, Close), steps)
    ensures Run(Next(s, Close), steps).pending == None || Run(Next(s, Close), steps).pending == s.pending
  {
    NothingNew(Next(s, Close), steps);
    hide Run, Continues;
  }

  lemma {:induction false} SafeStays(s: Sys, steps: seq<Step>)
    requires Continues(s, steps) && NoSend(steps) && !Failed(s) && !Exposed(s)
    ensures !Failed(Run(s, steps))
    decreases |steps|
  {
    hide Next, Failed, Exposed, Possible;
    if steps != [] {
      SafeKept(s, steps[0]);
      SafeStays(Next(s, steps[0]), steps[1..]);
    }
  }

  /** The exposed caller wakes up: at once, if nothing is pending, or behind the final response of another command. */
  lemma ExposedFails(s: Sys) returns (steps: seq<Step>)
    requires !s.crashed && Exposed(s)
    ensures Continues(s, steps) && NoSend(steps) && Failed(Run(s, steps))
  {
    var c :| c in s.waiting && s.pending != Some(c);
    if s.pending.None? {
      steps := [Wake(c)];
      WokenWrongly(s, c);
    } else {
      WokenWrongly(Next(s, FinalLine), c);
      steps := [FinalLine] + [Wake(c)];
      assert steps[1..] == [Wake(c)];
    }
  }

  lemma WokenWrongly(s: Sys, c: nat)
    requires !s.crashed && c in s.waiting && s.pending != Some(c) && (s.pending.Some? ==> s.final)
    ensures Continues(s, [Wake(c)]) && Failed(Run(s, [Wake(c)]))
  {
    var s' := Next(s, Wake(c));
    assert [Wake(c)][1..] == [] && Run(s', []) == s';
    if s.pending.Some? {
      assert s'.handed[|s.handed|] == Handed(c, s.pending.value);
    }
  }

  /**
   From a state in which nothing has gone wrong, some continuation without another command being sent
   crashes a caller or gives it another's response if and only if a caller waits whose command is not
   the pending one.
   */
  lemma FailsIff(s: Sys)
    requires !Failed(s)
    ensures (exists steps :: Continues(s, steps) && NoSend(steps) && Failed(Run(s, steps))) <==> Exposed(s)
  {
    hide Exposed, Failed;
    if Exposed(s) {
      assert !s.crashed by { NotCrashed(s); }
      var steps := ExposedFails(s);
    } else {
      forall steps | Continues(s, steps) && NoSend(steps)
        ensures !Failed(Run(s, steps))
      {
        SafeStays(s, steps);
      }
    }
  }

  lemma NotCrashed(s: Sys)
    requires !Failed(s)
    ensures !s.crashed
  {
  }

  /**
   Sending a command from such a state is safe if and only if nobody waits: the refusal of the second
   command throws the first one's response away.
   */
  lemma SendExposesIff(s: Sys, step: Step)
    requires Possible(s, step) && step.Send? && !Failed(s) && !Exposed(s)
    ensures !Failed(Next(s, step)) && (Exposed(Next(s, step)) <==> s.waiting != {})
  {
    if s.waiting != {} {
      var c :| c in s.waiting;
      assert c in Next(s, step).waiting;
    }
  }

  // ---------------------------------------------------------------------------------------
  // Runs from the start

  /** Every command is sent while nobody waits. */
  ghost predicate OneAtATime(s: Sys, steps: seq<Step>)
    requires Continues(s, steps)
    decreases |steps|
  {
    steps != [] ==>
      (steps[0].Send? ==> s.waiting == {}) && OneAtATime(Next(s, steps[0]), steps[1..])
  }

  /** With one command at a time, no run crashes a caller or gives it another's response. */
  lemma {:induction false} OneAtATimeSafe(s: Sys, steps: seq<Step>)
    requires Continues(s, steps) && OneAtATime(s, steps) && !Failed(s) && !Exposed(s)
    ensures !Failed(Run(s, steps)) && !Exposed(Run(s, steps))
    decreases |steps|
  {
    hide Next, Failed, Exposed, Possible;
    if steps != [] {
      SafeKept(s, steps[0]);
      OneAtATimeSafe(Next(s, steps[0]), steps[1..]);
    }
  }

  /** The other half: a command sent while somebody waits can always be followed by a failure. */
  lemma SecondCommandFails(steps: seq<Step>, step: Step) returns (more: seq<Step>)
    requires Continues(START, steps) && OneAtATime(START, steps)
    requires step.Send? && Possible(Run(START, steps), step) && Run(START, steps).waiting != {}
    ensures Continues(Next(Run(START, steps), step), more) && NoSend(more)
    ensures Failed(Run(Next(Run(START, steps), step), more))
  {
    hide Next, OneAtATime, Continues, NoSend, Run, Possible;
    OneAtATimeSafe(START, steps);
    var s := Run(START, steps);
    SendExposesIff(s, step);
    NotCrashed(Next(s, step));
    more := ExposedFails(Next(s, step));
  }

  /** One caller waits, a second command is refused, and the first caller wakes up without a response. */
  lemma RefusalCrashes(accepted: bool)
    ensures
      var steps := [Send(0, true), Send(1, accepted), Wake(0)];
      Continues(START, steps) && Run(START, steps).crashed
  {
    var steps := [Send(0, true), Send(1, accepted), Wake(0)];
    var s1 := Next(START, steps[0]);
    var s2 := Next(s1, steps[1]);
    var s3 := Next(s2, steps[2]);
    assert steps[1..][1..] == [Wake(0)] && steps[1..][1..][1..] == [];
    assert Continues(s3, []) && Run(s3, []) == s3;
    assert Continues(s2, steps[1..][1..]) && Run(s2, steps[1..][1..]) == s3;
    assert Continues(s1, steps[1..]) && Run(s1, steps[1..]) == s3;
  }

  /** And with a third command in between it is given the response to that one. */
  lemma ThirdIsMisgiven()
    ensures
      var steps := [Send(1, true), Send(2, true), FinalLine, Wake(0)];
      var s := Sys(Some(0), false, false, {0}, [], false);
      Continues(s, steps) && Run(s, steps).handed == [Handed(0, 2)]
  {
    var steps := [Send(1, true), Send(2, true), FinalLine, Wake(0)];
    var s := Sys(Some(0), false, false, {0}, [], false);
    var s1 := Next(s, steps[0]);
    var s2 := Next(s1, steps[1]);
    var s3 := Next(s2, steps[2]);
    var s4 := Next(s3, steps[3]);
    assert steps[1..][1..][1..] == [Wake(0)] && steps[1..][1..][1..][1..] == [];
    assert Continues(s4, []) && Run(s4, []) == s4;
    assert Continues(s3, steps[1..][1..][1..]) && Run(s3, steps[1..][1..][1..]) == s4;
    assert Continues(s2, steps[1..][1..]) && Run(s2, steps[1..][1..]) == s4;
    assert Continues(s1, steps[1..]) && Run(s1, steps[1..]) == s4;
  }
}

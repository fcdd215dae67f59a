/**
 Runs of the QMI request/response protocol (QMIThread.c), over any interleaving of callers that
 compose and send requests, the reader, time limits and disconnects: no request is freed twice,
 and exactly when a caller can be given a message that does not answer its request.
 */
module QmiSteps {
  import opened Bytes
  import opened Arith
  import opened QmiIds
  import opened QmiMatch

  /** A request, and how many ids of its kind had been drawn with its own. */
  datatype Issue = Issue(header: Header, serial: nat)

  datatype Handed = Handed(request: nat, message: Message)

  datatype Sys = Sys(
    ctlCalls: nat,                  // calls of GetQCTLTransactionId
    muxCalls: nat,                  // calls of GetQMUXTransactionId
    issued: seq<Issue>,             // all requests, in the order in which their ids were drawn
    unsent: set<nat>,               // those that have not been sent, as indices into `issued`
    pending: Option<nat>,           // s_pRequest
    response: Option<Message>,      // s_pResponse
    waiting: set<nat>,              // the requests whose callers wait
    handed: seq<Handed>,            // what callers have been given
    freed: seq<nat>,                // the requests the reader has freed
    spent: bool,                    // s_pResponse has been given to a caller, who owns it now
    twice: bool)                    // a response has been given away or freed by two callers

  datatype Step =
    | Compose(qmiType: nat)                                      // draw an id, without the mutex
    | Send(request: nat, clients: nat -> nat, sending: Sending)  // take the mutex, and wait or fail
    | Receive(message: Message)                                  // the reader takes in a message
    | Disconnect                                                 // the reader finds the device gone
    | Wake(caller: nat, wants: bool)                             // a wait ends; the caller wants the response or not
    | TimeOut(caller: nat)                                       // a wait runs into its time limit
    | Overwrite(k: nat, message: Message)                        // requestGetProfile behind its wait, unlocked

  function Calls(s: Sys, kind: Kind): nat {
    match kind
    case Ctl => s.ctlCalls
    case Mux => s.muxCalls
  }

  ghost predicate Possible(s: Sys, step: Step) {
    match step
    case Send(request, _, _) => request in s.unsent
    case Wake(caller, _) => caller in s.waiting
    case TimeOut(caller) => caller in s.waiting
    case Overwrite(k, _) => k < |s.handed|
    case _ => true
  }

  ghost function AfterCompose(s: Sys, qmiType: nat): Sys {
    var kind := KindOf(qmiType);
    var serial := Calls(s, kind) + 1;
    s.(ctlCalls := if kind == Ctl then serial else s.ctlCalls,
       muxCalls := if kind == Mux then serial else s.muxCalls,
       issued := s.issued + [Issue(Header(qmiType, 0, Id(kind, serial)), serial)],
       unsent := s.unsent + {|s.issued|})
  }

  /** The header with which a request is sent. */
  ghost function SentHeader(s: Sys, step: Step): Header
    requires step.Send? && step.request < |s.issued|
  {
    Rewritten(s.issued[step.request].header, step.clients, step.sending)
  }

  ghost function AfterSend(s: Sys, step: Step): Sys
    requires step.Send? && step.request < |s.issued|
  {
    var issue := s.issued[step.request];
    s.(issued := s.issued[step.request := issue.(header := SentHeader(s, step))],
       unsent := s.unsent - {step.request},
       pending := Some(step.request),
       response := None,
       spent := false,
       waiting := if Sent(issue.header, step.clients, step.sending) then s.waiting + {step.request} else s.waiting)
  }

  ghost function AfterArrival(s: Sys, m: Option<Message>): Sys
    requires s.pending.Some? ==> s.pending.value < |s.issued|
  {
    var taken := Take(if s.pending.Some? then Some(s.issued[s.pending.value].header) else None, s.response, m);
    if taken.freed && s.pending.Some? then s.(pending := None, response := taken.response, spent := false,
        freed := s.freed + [s.pending.value])
    else s.(response := taken.response)
  }

  ghost function Next(s: Sys, step: Step): Sys
    requires FreedOnce(s) && Possible(s, step)
  {
    match step
    case Compose(qmiType) => AfterCompose(s, qmiType)
    case Send(_, _, _) => AfterSend(s, step)
    case Receive(m) => AfterArrival(s, Some(m))
    case Disconnect => AfterArrival(s, None)
    case Wake(caller, wants) =>
      // the pointer is handed over and kept; a caller that does not want the response frees and clears it
      s.(waiting := s.waiting - {caller},
         response := if wants then s.response else None,
         spent := wants && s.response.Some?,
         twice := s.twice || (s.response.Some? && s.spent),
         handed := if wants && s.response.Some? then s.handed + [Handed(caller, s.response.value)] else s.handed)
    case TimeOut(caller) => s.(waiting := s.waiting - {caller})
    case Overwrite(_, message) => s.(response := Some(message), spent := false)
  }

  const START := Sys(0, 0, [], {}, None, None, {}, [], [], false, false)

  // ---------------------------------------------------------------------------------------
  // What every run keeps, with any number of callers

  /** All indices name requests. */
  ghost predicate InRange(s: Sys) {
    && (s.pending.Some? ==> s.pending.value < |s.issued|)
    && (forall i | i in s.unsent :: i < |s.issued|)
    && (forall i | i in s.waiting :: i < |s.issued|)
    && (forall i | i in s.freed :: i < |s.issued|)
    && (forall k | 0 <= k < |s.handed| :: s.handed[k].request < |s.issued|)
  }

  ghost predicate Distinct(s: seq<nat>) {
    forall i, j | 0 <= i < j < |s| :: s[i] != s[j]
  }

  /** What has been sent is not sent again, what is pending has not been freed, and nothing has been freed twice. */
  ghost predicate FreedOnce(s: Sys) {
    && InRange(s)
    && (s.pending.Some? ==> s.pending.value !in s.freed && s.pending.value !in s.unsent)
    && (forall i | i in s.freed :: i !in s.unsent)
    && (forall i | i in s.waiting :: i !in s.unsent)
    && Distinct(s.freed)
  }

  /** The serial numbers of a kind grow in the order of drawing, and each is the call that gave the id. */
  ghost predicate Drawn(s: Sys) {
    && (forall i | 0 <= i < |s.issued| ::
          var issue := s.issued[i];
          && 0 < issue.serial <= Calls(s, KindOf(issue.header.qmiType))
          && issue.header.tid == Id(KindOf(issue.header.qmiType), issue.serial))
    && (forall i, j | 0 <= i < j < |s.issued|
        && KindOf(s.issued[i].header.qmiType) == KindOf(s.issued[j].header.qmiType) ::
          s.issued[i].serial < s.issued[j].serial)
  }

  lemma FreedOnceKept(s: Sys, step: Step)
    requires FreedOnce(s) && Possible(s, step)
    ensures FreedOnce(Next(s, step))
  {
    hide Id, Rewritten, Sent;
  }

  lemma RewrittenKind(h: Header, clients: nat -> nat, sending: Sending)
    ensures KindOf(Rewritten(h, clients, sending).qmiType) == KindOf(h.qmiType)
    ensures Rewritten(h, clients, sending).tid == h.tid
  {
  }

  lemma DrawnKept(s: Sys, step: Step)
    requires FreedOnce(s) && Drawn(s) && Possible(s, step)
    ensures Drawn(Next(s, step))
  {
    if step.Send? {
      RewrittenKind(s.issued[step.request].header, step.clients, step.sending);
    }
    hide Id, Rewritten, Sent, KindOf;
  }

  // ---------------------------------------------------------------------------------------
  // When a caller can be given what does not answer its request

  /** A caller has been given a message that does not answer its request. */
  ghost predicate Crossed(s: Sys) {
    exists k | 0 <= k < |s.handed| ::
      s.handed[k].request < |s.issued| && !IsResponse(s.issued[s.handed[k].request].header, s.handed[k].message)
  }

  /** A caller waits with another header than that of the pending request, or of the response that is there. */
  ghost predicate Exposed(s: Sys)
    requires FreedOnce(s)
  {
    exists i | i in s.waiting ::
      || (s.pending.Some? && s.issued[s.pending.value].header != s.issued[i].header)
      || (s.response.Some? && !IsResponse(s.issued[i].header, s.response.value))
  }

  lemma SafeKept(s: Sys, step: Step)
    requires FreedOnce(s) && Possible(s, step) && !step.Send? && !step.Overwrite? && !Exposed(s) && !Crossed(s)
    ensures FreedOnce(Next(s, step)) && !Exposed(Next(s, step)) && !Crossed(Next(s, step))
  {
    hide Id, Rewritten, Sent;
    FreedOnceKept(s, step);
  }

  /** Steps that are possible one after the other. */
  ghost predicate Continues(s: Sys, steps: seq<Step>)
    requires FreedOnce(s)
    decreases |steps|
  {
    steps != [] ==>
      && Possible(s, steps[0])
      && (FreedOnceKept(s, steps[0]); Continues(Next(s, steps[0]), steps[1..]))
  }

  ghost function Run(s: Sys, steps: seq<Step>): (r: Sys)
    requires FreedOnce(s) && Continues(s, steps)
    ensures FreedOnce(r)
    decreases |steps|
  {
    if steps == [] then s
    else
      FreedOnceKept(s, steps[0]);
      Run(Next(s, steps[0]), steps[1..])
  }

  /** No further request is sent, and `s_pResponse` is not overwritten. */
  ghost predicate Undisturbed(steps: seq<Step>) {
    forall k | 0 <= k < |steps| :: !steps[k].Send? && !steps[k].Overwrite?
  }

  lemma {:induction false} SafeStays(s: Sys, steps: seq<Step>)
    requires FreedOnce(s) && Continues(s, steps) && Undisturbed(steps) && !Exposed(s) && !Crossed(s)
    ensures !Crossed(Run(s, steps))
    decreases |steps|
  {
    hide Next, Exposed, Crossed, FreedOnce, Possible;
    if steps != [] {
      SafeKept(s, steps[0]);
      SafeStays(Next(s, steps[0]), steps[1..]);
    }
  }

  /** The reply to the pending request, if any, and then the exposed caller wakes up. */
  lemma ExposedCrosses(s: Sys) returns (steps: seq<Step>)
    requires FreedOnce(s) && Exposed(s)
    ensures Continues(s, steps) && Undisturbed(steps) && Crossed(Run(s, steps))
  {
    var i :| i in s.waiting && ((s.pending.Some? && s.issued[s.pending.value].header != s.issued[i].header)
                                || (s.response.Some? && !IsResponse(s.issued[i].header, s.response.value)));
    if s.response.Some? && !IsResponse(s.issued[i].header, s.response.value) {
      steps := [Wake(i, true)];
      WokenWrongly(s, i);
    } else {
      var reply := Receive(Message(s.issued[s.pending.value].header, []));
      FreedOnceKept(s, reply);
      WokenWrongly(Next(s, reply), i);
      steps := [reply] + [Wake(i, true)];
      assert steps[1..] == [Wake(i, true)];
    }
  }

  lemma WokenWrongly(s: Sys, i: nat)
    requires FreedOnce(s) && i in s.waiting
    requires s.response.Some? && !IsResponse(s.issued[i].header, s.response.value)
    ensures Continues(s, [Wake(i, true)]) && Crossed(Run(s, [Wake(i, true)]))
  {
    var wake := Wake(i, true);
    FreedOnceKept(s, wake);
    var s' := Next(s, wake);
    assert [wake][1..] == [];
    assert s'.handed[|s.handed|] == Handed(i, s.response.value);
    assert Run(s', []) == s';
  }

  /**
   From a state in which nobody has been given a wrong message, some undisturbed continuation gives a
   caller a wrong one if and only if a caller waits whose header differs
   from that of the pending request or of the response that is there.
   */
  lemma CrossesIff(s: Sys)
    requires FreedOnce(s) && !Crossed(s)
    ensures (exists steps :: Continues(s, steps) && Undisturbed(steps) && Crossed(Run(s, steps))) <==> Exposed(s)
  {
    hide Exposed, Crossed, FreedOnce;
    if Exposed(s) {
      var steps := ExposedCrosses(s);
    } else {
      forall steps | Continues(s, steps) && Undisturbed(steps)
        ensures !Crossed(Run(s, steps))
      {
        SafeStays(s, steps);
      }
    }
  }

  /** A request that is sent has the headers of all callers that wait. */
  ghost predicate SameHeaders(s: Sys, step: Step)
    requires FreedOnce(s) && Possible(s, step) && step.Send?
  {
    forall i | i in s.waiting :: s.issued[i].header == SentHeader(s, step)
  }

  /** So sending a request while others wait is safe exactly when their headers coincide with its own. */
  lemma SendExposesIff(s: Sys, step: Step)
    requires FreedOnce(s) && Possible(s, step) && step.Send?
    ensures FreedOnce(Next(s, step)) && (Exposed(Next(s, step)) <==> !SameHeaders(s, step))
  {
    hide Id, Rewritten, Sent;
    FreedOnceKept(s, step);
    var s' := Next(s, step);
    if !SameHeaders(s, step) {
      var i :| i in s.waiting && s.issued[i].header != SentHeader(s, step);
      assert i in s'.waiting && s'.issued[i].header == s.issued[i].header;
    }
  }

  /** So does overwriting `s_pResponse`, with whatever the new memory holds. */
  lemma OverwriteExposesIff(s: Sys, step: Step)
    requires FreedOnce(s) && Possible(s, step) && step.Overwrite? && !Exposed(s) && !Crossed(s)
    ensures FreedOnce(Next(s, step)) && !Crossed(Next(s, step))
    ensures Exposed(Next(s, step)) <==> exists i | i in s.waiting :: s.issued[i].header != step.message.header
  {
    FreedOnceKept(s, step);
    var s' := Next(s, step);
    if i :| i in s.waiting && s.issued[i].header != step.message.header {
      assert i in s'.waiting;
    }
  }

  /** Within one cycle of ids they never do. */
  lemma WaitingDiffer(s: Sys, step: Step)
    requires FreedOnce(s) && Drawn(s) && Possible(s, step) && step.Send? && s.waiting != {}
    requires s.ctlCalls <= Limit(Ctl) && s.muxCalls <= Limit(Mux)
    ensures !SameHeaders(s, step)
  {
    var i :| i in s.waiting;
    if s.issued[i].header == SentHeader(s, step) {
      RewrittenKind(s.issued[step.request].header, step.clients, step.sending);
      var kind := KindOf(s.issued[i].header.qmiType);
      var a, b := s.issued[i].serial, s.issued[step.request].serial;
      if a <= b {
        SameId(kind, a, b);
        DivUnique(b - a, Limit(kind), 0, b - a);
      } else {
        SameId(kind, b, a);
        DivUnique(a - b, Limit(kind), 0, a - b);
      }
      assert false;
    }
  }

  lemma CrossedKeptOff(s: Sys, step: Step)
    requires FreedOnce(s) && Possible(s, step) && step.Send? && !Crossed(s) && AnsweredSent(s)
    ensures FreedOnce(Next(s, step)) && !Crossed(Next(s, step))
  {
    hide Id, Rewritten, Sent;
    FreedOnceKept(s, step);
  }

  /** Only callers that sent their request have been given a message. */
  ghost predicate AnsweredSent(s: Sys) {
    forall k | 0 <= k < |s.handed| :: s.handed[k].request !in s.unsent
  }

  lemma AnsweredSentKept(s: Sys, step: Step)
    requires FreedOnce(s) && Possible(s, step) && AnsweredSent(s)
    ensures AnsweredSent(Next(s, step))
  {
    hide Id, Rewritten, Sent;
  }

  // ---------------------------------------------------------------------------------------
  // When two callers can be given the same response

  /**
   Somebody waits for a response that has been given away already, or two wait while there is a response
   or a request that can still get one.
   */
  ghost predicate Shared(s: Sys) {
    || (s.waiting != {} && s.response.Some? && s.spent)
    || (TwoWait(s) && (s.response.Some? || s.pending.Some?))
  }

  ghost predicate TwoWait(s: Sys) {
    exists i, j | i in s.waiting && j in s.waiting :: i != j
  }

  lemma OnceKept(s: Sys, step: Step)
    requires FreedOnce(s) && Possible(s, step) && !step.Send? && !step.Overwrite? && !s.twice && !Shared(s)
    ensures FreedOnce(Next(s, step)) && !Next(s, step).twice && !Shared(Next(s, step))
  {
    hide Id, Rewritten, Sent;
    FreedOnceKept(s, step);
    if step.Wake? && s.response.Some? {
      assert forall i | i in s.waiting :: i == step.caller;
    }
  }

  lemma {:induction false} OnceStays(s: Sys, steps: seq<Step>)
    requires FreedOnce(s) && Continues(s, steps) && Undisturbed(steps) && !s.twice && !Shared(s)
    ensures !Run(s, steps).twice
    decreases |steps|
  {
    hide Next, Shared, FreedOnce, Possible;
    if steps != [] {
      OnceKept(s, steps[0]);
      OnceStays(Next(s, steps[0]), steps[1..]);
    }
  }

  /** One caller wakes up behind another, or behind a caller before. */
  lemma SharedTwice(s: Sys) returns (steps: seq<Step>)
    requires FreedOnce(s) && Shared(s)
    ensures Continues(s, steps) && Undisturbed(steps) && Run(s, steps).twice
  {
    if s.waiting != {} && s.response.Some? && s.spent {
      var i :| i in s.waiting;
      steps := [Wake(i, true)];
      SpentWoken(s, i);
    } else {
      var i, j :| i in s.waiting && j in s.waiting && i != j;
      if s.response.Some? {
        steps := [Wake(i, true), Wake(j, true)];
        BothWoken(s, i, j);
      } else {
        var reply := Receive(Message(s.issued[s.pending.value].header, []));
        FreedOnceKept(s, reply);
        BothWoken(Next(s, reply), i, j);
        steps := [reply] + [Wake(i, true), Wake(j, true)];
        assert steps[1..] == [Wake(i, true), Wake(j, true)];
      }
    }
  }

  lemma SpentWoken(s: Sys, i: nat)
    requires FreedOnce(s) && i in s.waiting && s.response.Some? && s.spent
    ensures Continues(s, [Wake(i, true)]) && Run(s, [Wake(i, true)]).twice
  {
    var wake := Wake(i, true);
    FreedOnceKept(s, wake);
    var s' := Next(s, wake);
    assert [wake][1..] == [] && Run(s', []) == s';
  }

  lemma BothWoken(s: Sys, i: nat, j: nat)
    requires FreedOnce(s) && i in s.waiting && j in s.waiting && i != j && s.response.Some?
    ensures Continues(s, [Wake(i, true), Wake(j, true)]) && Run(s, [Wake(i, true), Wake(j, true)]).twice
  {
    var steps := [Wake(i, true), Wake(j, true)];
    FreedOnceKept(s, steps[0]);
    assert steps[1..] == [Wake(j, true)];
    SpentWoken(Next(s, steps[0]), j);
  }

  /**
   From a state in which that has not happened, some undisturbed continuation gives one response to two
   callers, or has two callers free it, if and only if it is shared.
   */
  lemma TwiceIff(s: Sys)
    requires FreedOnce(s) && !s.twice
    ensures (exists steps :: Continues(s, steps) && Undisturbed(steps) && Run(s, steps).twice) <==> Shared(s)
  {
    hide Shared, FreedOnce;
    if Shared(s) {
      var steps := SharedTwice(s);
    } else {
      forall steps | Continues(s, steps) && Undisturbed(steps)
        ensures !Run(s, steps).twice
      {
        OnceStays(s, steps);
      }
    }
  }

  /** Sending a request, or overwriting the response, shares it if and only if two callers wait then. */
  lemma SharesIff(s: Sys, step: Step)
    requires FreedOnce(s) && Possible(s, step) && (step.Send? || step.Overwrite?) && !s.twice
    ensures FreedOnce(Next(s, step)) && !Next(s, step).twice
    ensures Shared(Next(s, step)) <==> TwoWait(Next(s, step))
  {
    hide Id, Rewritten, Sent;
    FreedOnceKept(s, step);
  }

  // ---------------------------------------------------------------------------------------
  // Runs from the start

  function Front(steps: seq<Step>): seq<Step>
    requires steps != []
  {
    steps[..|steps| - 1]
  }

  function Last(steps: seq<Step>): Step
    requires steps != []
  {
    steps[|steps| - 1]
  }

  ghost predicate PossibleRun(steps: seq<Step>)
    decreases |steps|, 0
  {
    steps != [] ==> PossibleRun(Front(steps)) && Possible(After(Front(steps)), Last(steps))
  }

  /** The state after some steps: in every one no request has been freed twice, and ids are drawn in order. */
  ghost function After(steps: seq<Step>): (s: Sys)
    requires PossibleRun(steps)
    ensures FreedOnce(s) && Drawn(s) && AnsweredSent(s)
    decreases |steps|, 1
  {
    if steps == [] then START
    else
      var before := After(Front(steps));
      FreedOnceKept(before, Last(steps));
      DrawnKept(before, Last(steps));
      AnsweredSentKept(before, Last(steps));
      Next(before, Last(steps))
  }

  /** The step leaves what callers wait for alone. */
  ghost predicate Careful(s: Sys, step: Step)
    requires FreedOnce(s) && Possible(s, step)
  {
    && (step.Send? ==> SameHeaders(s, step))
    && (step.Overwrite? ==> forall i | i in s.waiting :: s.issued[i].header == step.message.header)
  }

  /**
   Requests are sent only while nobody waits, or while all who wait have the same header, and
   `s_pResponse` is not overwritten with anything else while somebody waits.
   */
  ghost predicate CarefulRun(steps: seq<Step>)
    requires PossibleRun(steps)
  {
    steps != [] ==>
      && CarefulRun(Front(steps)) && Careful(After(Front(steps)), Last(steps))
  }

  /** One caller at a time. */
  ghost predicate SerializedRun(steps: seq<Step>)
    requires PossibleRun(steps)
  {
    steps != [] ==>
      SerializedRun(Front(steps)) && (Last(steps).Send? || Last(steps).Overwrite? ==> After(Front(steps)).waiting == {})
  }

  lemma {:induction false} SerializedIsCareful(steps: seq<Step>)
    requires PossibleRun(steps) && SerializedRun(steps)
    ensures CarefulRun(steps)
  {
    if steps != [] {
      SerializedIsCareful(Front(steps));
    }
  }

  /** With one caller at a time no response is given away or freed twice. */
  lemma {:induction false} SerializedOnce(steps: seq<Step>)
    requires PossibleRun(steps) && SerializedRun(steps)
    ensures !After(steps).twice && !Shared(After(steps)) && !TwoWait(After(steps))
  {
    if steps != [] {
      hide Next, FreedOnce, Drawn, AnsweredSent, Possible, Shared, TwoWait;
      SerializedOnce(Front(steps));
      var s, step := After(Front(steps)), Last(steps);
      OneMoreWaits(s, step);
      if step.Send? || step.Overwrite? {
        SharesIff(s, step);
      } else {
        OnceKept(s, step);
      }
    } else {
      assert After(steps) == START;
    }
  }

  lemma OneMoreWaits(s: Sys, step: Step)
    requires FreedOnce(s) && Possible(s, step) && !TwoWait(s) && (step.Send? ==> s.waiting == {})
    ensures !TwoWait(Next(s, step))
  {
    hide Id, Rewritten, Sent;
  }

  /** In a careful run, so with one caller at a time, whatever a caller is given answers the request it sent. */
  lemma {:induction false} RunMatches(steps: seq<Step>)
    requires PossibleRun(steps) && CarefulRun(steps)
    ensures !Crossed(After(steps)) && !Exposed(After(steps))
  {
    if steps != [] {
      hide Exposed, Crossed, Next, FreedOnce, Drawn, AnsweredSent, SameHeaders, Possible;
      RunMatches(Front(steps));
      var s, step := After(Front(steps)), Last(steps);
      if step.Send? {
        CrossedKeptOff(s, step);
        SendExposesIff(s, step);
      } else if step.Overwrite? {
        OverwriteExposesIff(s, step);
      } else {
        SafeKept(s, step);
      }
    } else {
      assert After(steps) == START;
    }
  }

  /**
   The other half: behind any run that has been careful so far, a step that is not can be followed,
   undisturbed, by a wrong message.
   */
  lemma CarelessStepCrosses(steps: seq<Step>, step: Step) returns (more: seq<Step>)
    requires PossibleRun(steps) && CarefulRun(steps) && Possible(After(steps), step)
    requires !Careful(After(steps), step)
    ensures FreedOnce(Next(After(steps), step)) && Continues(Next(After(steps), step), more) && Undisturbed(more)
    ensures Crossed(Run(Next(After(steps), step), more))
  {
    if step.Send? {
      SendExposesIff(After(steps), step);
    } else {
      RunMatches(steps);
      OverwriteExposesIff(After(steps), step);
    }
    more := ExposedCrosses(Next(After(steps), step));
  }

  /** Requests of one kind, by the distance of their serial numbers. */
  function Distance(a: Issue, b: Issue): nat {
    if a.serial <= b.serial then b.serial - a.serial else a.serial - b.serial
  }

  lemma Distinguished(s: Sys, i: nat, j: nat)
    requires Drawn(s) && i < |s.issued| && j < |s.issued| && s.issued[i].header == s.issued[j].header
    ensures
      var limit := Limit(KindOf(s.issued[i].header.qmiType));
      Distance(s.issued[i], s.issued[j]) % limit == 0 && (Distance(s.issued[i], s.issued[j]) < limit ==> i == j)
  {
    var kind := KindOf(s.issued[i].header.qmiType);
    var a, b := s.issued[i].serial, s.issued[j].serial;
    if a <= b {
      SameId(kind, a, b);
    } else {
      SameId(kind, b, a);
    }
    var d := Distance(s.issued[i], s.issued[j]);
    if d < Limit(kind) {
      DivUnique(d, Limit(kind), 0, d);
    }
    hide Limit, Id;
  }

  /**
   A message handed to a caller that also answers another request, such as the late reply to one
   that timed out, is a whole cycle of ids away from it; within a cycle it is the caller's own.
   */
  lemma NoCrossing(steps: seq<Step>, k: nat, i: nat)
    requires PossibleRun(steps) && CarefulRun(steps)
    requires k < |After(steps).handed| && i < |After(steps).issued|
    requires IsResponse(After(steps).issued[i].header, After(steps).handed[k].message)
    ensures
      var s := After(steps);
      && s.handed[k].request < |s.issued|
      && (var mine, other := s.issued[s.handed[k].request], s.issued[i];
          var limit := Limit(KindOf(other.header.qmiType));
          Distance(mine, other) % limit == 0 && (Distance(mine, other) < limit ==> i == s.handed[k].request))
  {
    hide Limit, Id, After, Drawn, PossibleRun, CarefulRun, AnsweredSent;
    RunMatches(steps);
    var s := After(steps);
    assert IsResponse(s.issued[s.handed[k].request].header, s.handed[k].message);
    Distinguished(s, i, s.handed[k].request);
  }

  lemma SameHeader(s: Sys, i: nat, j: nat)
    requires Drawn(s) && i < |s.issued| && j < |s.issued|
    ensures
      var a, b := s.issued[i], s.issued[j];
      a.header == b.header <==>
        && a.header.qmiType == b.header.qmiType && a.header.clientId == b.header.clientId
        && Distance(a, b) % Limit(KindOf(a.header.qmiType)) == 0
  {
    hide Limit, Id, KindOf;
    var kind := KindOf(s.issued[i].header.qmiType);
    if s.issued[i].header.qmiType == s.issued[j].header.qmiType {
      if s.issued[i].serial <= s.issued[j].serial {
        SameId(kind, s.issued[i].serial, s.issued[j].serial);
      } else {
        SameId(kind, s.issued[j].serial, s.issued[i].serial);
      }
    }
  }

  /** What arrives changes the state exactly if it answers the pending request. */
  lemma ArrivalMatters(s: Sys, m: Message)
    requires FreedOnce(s) && s.pending.Some?
    ensures Next(s, Receive(m)) != s <==> IsResponse(s.issued[s.pending.value].header, m)
  {
    if IsResponse(s.issued[s.pending.value].header, m) {
      assert Next(s, Receive(m)).pending == None;
    }
  }

  /**
   The reply to an earlier request changes nothing, unless service and client are those of the
   pending request and whole cycles of ids lie between the two.
   */
  lemma LateReply(steps: seq<Step>, m: Message, i: nat)
    requires PossibleRun(steps)
    requires After(steps).pending.Some? && i < |After(steps).issued|
    requires IsResponse(After(steps).issued[i].header, m)
    ensures
      var s := After(steps);
      && s.pending.value < |s.issued|
      && (var mine, pending := s.issued[i], s.issued[s.pending.value];
          Next(s, Receive(m)) != s <==>
            && mine.header.qmiType == pending.header.qmiType && mine.header.clientId == pending.header.clientId
            && Distance(mine, pending) % Limit(KindOf(mine.header.qmiType)) == 0)
  {
    hide After, PossibleRun, Drawn, Next, Distance, Limit, KindOf;
    var s := After(steps);
    ArrivalMatters(s, m);
    SameHeader(s, i, s.pending.value);
  }

  // ---------------------------------------------------------------------------------------
  // A run with two callers

  lemma OneMore(steps: seq<Step>, step: Step)
    requires PossibleRun(steps) && Possible(After(steps), step)
    ensures PossibleRun(steps + [step]) && After(steps + [step]) == Next(After(steps), step)
  {
    hide FreedOnce, Drawn, AnsweredSent, Next, Possible;
    assert Front(steps + [step]) == steps;
  }

  function Composed(n: nat): Sys {
    var first, second := Issue(Header(WDS, 0, 1), 1), Issue(Header(WDS, 0, 2), 2);
    if n == 1 then START.(muxCalls := 1, issued := [first], unsent := {0})
    else START.(muxCalls := 2, issued := [first, second], unsent := {0, 1})
  }

  lemma BothComposed()
    ensures FreedOnce(START) && FreedOnce(Composed(1)) && FreedOnce(Composed(2))
    ensures Next(START, Compose(WDS)) == Composed(1) && Next(Composed(1), Compose(WDS)) == Composed(2)
  {
    assert Id(Mux, 1) == 1 && Id(Mux, 2) == 2;
  }

  function FirstWaits(): Sys {
    Sys(0, 2, [Issue(Header(WDS, 7, 1), 1), Issue(Header(WDS, 0, 2), 2)], {1}, Some(0), None, {0}, [], [], false, false)
  }

  lemma FirstSent(send: Step)
    requires send.Send? && send.request == 0 && send.clients(WDS) == 7 && send.sending == Written
    ensures FreedOnce(Composed(2)) && Possible(Composed(2), send) && Next(Composed(2), send) == FirstWaits()
  {
    var s := Next(Composed(2), send);
    assert s.issued == FirstWaits().issued && s.unsent == {1} && s.waiting == {0};
  }

  /** Two requests are composed, one is sent, and its caller waits. */
  lemma OneWaits() returns (steps: seq<Step>)
    ensures PossibleRun(steps) && After(steps) == FirstWaits()
  {
    steps := [];
    assert After(steps) == START && PossibleRun(steps);
    hide After, PossibleRun, FreedOnce, Drawn, AnsweredSent, Next, FirstWaits;
    BothComposed();
    OneMore(steps, Compose(WDS));
    steps := steps + [Compose(WDS)];
    OneMore(steps, Compose(WDS));
    steps := steps + [Compose(WDS)];
    var send := Send(0, t => 7, Written);
    FirstSent(send);
    OneMore(steps, send);
    steps := steps + [send];
  }

  /**
   So with two callers at once the guarantee is lost: the wait releases the mutex, the second
   request replaces the first as the pending one, and its reply wakes the first caller.
   */
  lemma ConcurrentCallersCross() returns (s: Sys, more: seq<Step>)
    ensures FreedOnce(s) && !Crossed(s) && Continues(s, more) && Undisturbed(more) && Crossed(Run(s, more))
    ensures exists steps :: PossibleRun(steps) && After(steps) == s
  {
    hide After, PossibleRun, Exposed, Continues, Run, FreedOnce, Drawn, AnsweredSent;
    var steps := OneWaits();
    var send := Send(1, t => 7, Written);
    OneMore(steps, send);
    steps := steps + [send];
    s := After(steps);
    SecondIsExposed(s);
    more := ExposedCrosses(s);
  }

  lemma SecondIsExposed(s: Sys)
    requires s.issued == [Issue(Header(WDS, 7, 1), 1), Issue(Header(WDS, 7, 2), 2)] && s.waiting == {0, 1}
    requires s.pending == Some(1) && FreedOnce(s)
    ensures Exposed(s)
  {
    assert 0 in s.waiting;
  }
}

/**
 Matching QMI responses to requests (QMIThread.c, `QmiThreadSendQMITimeout` and
 `QmiThreadRecvQMI`): one pending request, a condition variable, timeouts and late replies.
 */
module QmiMatch {
  import opened Bytes
  import opened QmiIds

  const CTL := 0x00
  const WDS := 0x01
  const WDS_IPV6 := 0x11

  /** What a message is matched by. */
  datatype Header = Header(qmiType: nat, clientId: nat, tid: nat)

  datatype Message = Message(header: Header, content: seq<byte>)

  predicate IsResponse(request: Header, m: Message) {
    request == m.header
  }

  function KindOf(qmiType: nat): Kind {
    if qmiType == CTL then Ctl else Mux
  }

  /** What becomes of a request in `qmidev_send`. */
  datatype Sending = NoDevice | WriteFails | Written

  /** The header as `QmiWwanSendQMI` leaves it: the client id of the service, and WDS for its IPv6 twin. */
  function Rewritten(h: Header, clients: nat -> nat, sending: Sending): Header {
    if sending == NoDevice || h.qmiType == CTL then h
    else if clients(h.qmiType) == 0 then h.(clientId := 0)
    else h.(clientId := clients(h.qmiType), qmiType := if h.qmiType == WDS_IPV6 then WDS else h.qmiType)
  }

  predicate Sent(h: Header, clients: nat -> nat, sending: Sending) {
    sending == Written && (h.qmiType == CTL || clients(h.qmiType) != 0)
  }

  /**
   On the wire: a control request goes out as it is. Any other one carries the client id of its service, and
   is for the service WDS (0x01) if it was for the IPv6 twin of that (0x11); without a client id, without a
   device or with a failing write it does not go out.
   */
  ghost predicate SentAs(h: Header, sent: Header, clients: nat -> nat, sending: Sending, ok: bool) {
    && (ok <==> sending == Written && (h.qmiType == 0x00 || clients(h.qmiType) != 0))
    && (h.qmiType == 0x00 || sending == NoDevice ==> sent == h)
    && (h.qmiType != 0x00 && sending != NoDevice && clients(h.qmiType) != 0 ==>
          sent == Header(if h.qmiType == 0x11 then 0x01 else h.qmiType, clients(h.qmiType), h.tid))
    && (h.qmiType != 0x00 && sending != NoDevice && clients(h.qmiType) == 0 ==> sent == Header(h.qmiType, 0, h.tid))
    && (ok ==> sent.qmiType != 0x11)
  }

  /** What the reader does to the pending request and the response: whether it frees the one, and the other. */
  datatype Taken = Taken(freed: bool, response: Option<Message>)

  /** A message, or none when the device is gone. */
  function Take(pending: Option<Header>, response: Option<Message>, m: Option<Message>): Taken {
    if pending == None then Taken(false, response)
    else if m == None then Taken(true, None)
    else if IsResponse(pending.value, m.value) then Taken(true, m)
    else Taken(false, response)
  }

  // ---------------------------------------------------------------------------------------
  // The two halves of the protocol, as the program has them

  class Request {
    var header: Header

    constructor (header: Header)
      ensures this.header == header
    {
      this.header := header;
    }
  }

  /** How a wait on the condition variable ends. */
  datatype Ending = Signalled | TimedOut

  class QmiThread {
    var pending: Request?             // s_pRequest
    var response: Option<Message>     // s_pResponse
    var clients: nat -> nat           // qmiclientId

    ghost function Pending(): Option<Header>
      reads this, pending
    {
      if pending == null then None else Some(pending.header)
    }

    /** `QmiWwanSendQMI`: rewrites the header in place. */
    method SendQMI(request: Request, sending: Sending) returns (sent: bool)
      modifies request
      ensures request.header == Rewritten(old(request.header), clients, sending)
      ensures sent == Sent(old(request.header), clients, sending)
      ensures SentAs(old(request.header), request.header, clients, sending, sent)
    {
      if sending == NoDevice {
        return false;
      }
      if request.header.qmiType != CTL {
        request.header := request.header.(clientId := clients(request.header.qmiType));
        if request.header.clientId == 0 {
          return false;
        }
        if request.header.qmiType == WDS_IPV6 {
          request.header := request.header.(qmiType := WDS);
        }
      }
      return sending == Written;
    }

    /** `QmiThreadRecvQMI`; no message means that the device is gone. The request it frees is returned. */
    method RecvQMI(m: Option<Message>) returns (freed: Request?)
      modifies this`pending, this`response
      ensures
        var taken := Take(old(Pending()), old(response), m);
        && response == taken.response
        && freed == (if taken.freed then old(pending) else null)
        && pending == (if taken.freed then null else old(pending))
      ensures
        var answered := old(pending) != null && m.Some? && m.value.header == old(pending.header);
        && (answered ==> pending == null && freed == old(pending) && response == m)
        && (m == None ==> pending == null && freed == old(pending))
        && (m == None && old(pending) != null ==> response == None)
        && (!answered && (m.Some? || old(pending) == null) ==>
              pending == old(pending) && freed == null && response == old(response))
    {
      freed := null;
      if m == None {
        if pending != null {
          freed := pending;
          pending, response := null, None;
        }
        return;
      }
      if pending != null && IsResponse(pending.header, m.value) {
        freed := pending;
        pending := null;
        response := m;
      }
    }

    /**
     `QmiThreadSendQMITimeout` with no other caller: `arrivals` are the messages the reader takes
     in during the wait. A message that is handed over arrived during this wait and matches the
     request as it was sent. The request is freed at most once.
     */
    method SendQMITimeout(request: Request, sending: Sending, arrivals: seq<Option<Message>>, ending: Ending)
      returns (ok: bool, result: Option<Message>, ghost frees: nat)
      modifies this`pending, this`response, request
      ensures request.header == Rewritten(old(request.header), clients, sending)
      ensures ok == (Sent(old(request.header), clients, sending) && ending == Signalled)
      ensures var sent := Sent(old(request.header), clients, sending);
              SentAs(old(request.header), request.header, clients, sending, sent)
      ensures result.Some? ==> ok && result in arrivals && IsResponse(request.header, result.value)
      ensures ok ==> result == FirstReply(request.header, arrivals)
      ensures result.Some? ==> exists i: nat :: Answers(request.header, arrivals, i) && result == arrivals[i]
      ensures ok ==> forall i: nat | Answers(request.header, arrivals, i) :: result == arrivals[i]
      // the reply to an IPv6 request comes from the service WDS
      ensures ok && old(request.header.qmiType) == 0x11 && |arrivals| == 1 && arrivals[0].Some?
              && arrivals[0].value.header == Header(0x01, clients(0x11), old(request.header.tid)) ==>
                result == arrivals[0]
      ensures frees <= 1 && (frees == 1 <==> pending == null) && (pending == null || pending == request)
    {
      result, frees := None, 0;
      pending, response := request, None;
      var sent := SendQMI(request, sending);
      if !sent {
        return false, None, 0;
      }
      var i := 0;
      while i < |arrivals|
        invariant i <= |arrivals| && request.header == Rewritten(old(request.header), clients, sending)
        invariant pending == null || pending == request
        invariant frees == if pending == null then 1 else 0
        invariant pending != null ==>
            response == None && FirstReply(request.header, arrivals) == FirstReply(request.header, arrivals[i..])
        invariant pending == null ==> response == FirstReply(request.header, arrivals)
      {
        var freed := RecvQMI(arrivals[i]);
        frees := frees + if freed == null then 0 else 1;
        assert arrivals[i..][1..] == arrivals[i + 1..];
        i := i + 1;
      }
      FirstReplyMatches(request.header, arrivals);
      FirstReplyIs(request.header, arrivals);
      ok := ending == Signalled;
      result := if ok then response else None;
    }
  }

  /** The first arrival that answers the request, unless the device goes first. */
  function FirstReply(request: Header, arrivals: seq<Option<Message>>): Option<Message> {
    if arrivals == [] || arrivals[0] == None then None
    else if IsResponse(request, arrivals[0].value) then arrivals[0]
    else FirstReply(request, arrivals[1..])
  }

  /** Arrival i has the header of the request, and so has none before it, nor was the device gone by then. */
  ghost predicate Answers(request: Header, arrivals: seq<Option<Message>>, i: nat) {
    && i < |arrivals| && arrivals[i].Some? && arrivals[i].value.header == request
    && forall j | 0 <= j < i :: arrivals[j].Some? && arrivals[j].value.header != request
  }

  lemma {:induction false} FirstReplyIs(request: Header, arrivals: seq<Option<Message>>)
    ensures FirstReply(request, arrivals).Some? ==>
              exists i: nat :: Answers(request, arrivals, i) && FirstReply(request, arrivals) == arrivals[i]
    ensures forall i: nat | Answers(request, arrivals, i) :: FirstReply(request, arrivals) == arrivals[i]
  {
    if arrivals != [] && arrivals[0].Some? {
      if arrivals[0].value.header == request {
        assert Answers(request, arrivals, 0);
      } else {
        var rest := arrivals[1..];
        FirstReplyIs(request, rest);
        if FirstReply(request, rest).Some? {
          var i: nat :| Answers(request, rest, i) && FirstReply(request, rest) == rest[i];
          assert forall j | 0 < j <= i :: arrivals[j] == rest[j - 1];
          assert Answers(request, arrivals, i + 1);
        }
        forall i: nat | Answers(request, arrivals, i)
          ensures FirstReply(request, arrivals) == arrivals[i]
        {
          assert i > 0 && forall j | 0 <= j < i - 1 :: rest[j] == arrivals[j + 1];
          assert Answers(request, rest, i - 1);
        }
      }
    }
  }

  lemma {:induction false} FirstReplyMatches(request: Header, arrivals: seq<Option<Message>>)
    ensures
      var r := FirstReply(request, arrivals);
      r.Some? ==> r in arrivals && IsResponse(request, r.value)
  {
    if arrivals != [] && arrivals[0].Some? {
      FirstReplyMatches(request, arrivals[1..]);
    }
  }
}

/** The lines of a stream on the AT channel (atchannel.c), and what is known of the next one while it arrives. */
module AtLines {
  import opened Bytes

  const CR := 13
  const LF := 10

  predicate IsNewline(b: byte) {
    b == CR || b == LF
  }

  // ---------------------------------------------------------------------------------------
  // What the lines of a stream are

  /** How many newlines a stream starts with. */
  function Lead(s: seq<byte>): (n: nat)
    ensures n <= |s|
  {
    if s == [] || !IsNewline(s[0]) then 0 else 1 + Lead(s[1..])
  }

  /** How many other bytes a stream starts with. */
  function Span(s: seq<byte>): (n: nat)
    ensures n <= |s|
  {
    if s == [] || IsNewline(s[0]) then 0 else 1 + Span(s[1..])
  }

  function Skip(s: seq<byte>): seq<byte> {
    s[Lead(s)..]
  }

  /** The first line and what follows its terminator, if the stream holds a complete line. */
  function NextLine(s: seq<byte>): (r: Option<(seq<byte>, seq<byte>)>)
    ensures r.Some? ==> |r.value.1| < |s|
  {
    var t := Skip(s);
    var n := Span(t);
    if n == |t| then None else Some((t[..n], t[n + 1..]))
  }

  /** All lines of a stream, however it arrives. */
  function Lines(s: seq<byte>): seq<seq<byte>>
    decreases |s|
  {
    match NextLine(s)
    case None => []
    case Some((line, rest)) => [line] + Lines(rest)
  }

  /** What remains after the last complete line. */
  function Remainder(s: seq<byte>): seq<byte>
    decreases |s|
  {
    match NextLine(s)
    case None => Skip(s)
    case Some((_, rest)) => Remainder(rest)
  }

  /** Cutting at every newline: the terminated segments, empty ones included. */
  function Segments(s: seq<byte>): seq<seq<byte>>
    decreases |s|
  {
    var n := Span(s);
    if n == |s| then [] else [s[..n]] + Segments(s[n + 1..])
  }

  function NonEmpty(segments: seq<seq<byte>>): seq<seq<byte>> {
    if segments == [] then []
    else (if segments[0] == [] then [] else [segments[0]]) + NonEmpty(segments[1..])
  }

  lemma NewlineFirst(s: seq<byte>)
    requires s != [] && IsNewline(s[0])
    ensures NextLine(s) == NextLine(s[1..]) && Segments(s) == [[]] + Segments(s[1..])
  {
    assert Skip(s) == Skip(s[1..]);
    assert s[..0] == [];
  }

  lemma LineFirst(s: seq<byte>)
    requires s != [] && !IsNewline(s[0])
    ensures Lead(s) == 0 && Skip(s) == s
    ensures NextLine(s) == if Span(s) == |s| then None else Some((s[..Span(s)], s[Span(s) + 1..]))
  {
  }

  /** The lines are the non-empty segments of the stream cut at CR and LF. */
  lemma {:induction false} LinesAreSegments(s: seq<byte>)
    ensures Lines(s) == NonEmpty(Segments(s))
    decreases |s|
  {
    if s != [] {
      if IsNewline(s[0]) {
        NewlineFirst(s);
        LinesAreSegments(s[1..]);
        var rest := Segments(s[1..]);
        hide NextLine, Segments, Span;
        assert ([[]] + rest)[1..] == rest;
      } else {
        LineFirst(s);
        if Span(s) < |s| {
          LinesAreSegments(s[Span(s) + 1..]);
          assert Segments(s)[1..] == Segments(s[Span(s) + 1..]);
        }
      }
    }
  }

  /** A stream without its carriage returns and line feeds. */
  function Text(s: seq<byte>): seq<byte> {
    if s == [] then [] else (if s[0] == 13 || s[0] == 10 then [] else [s[0]]) + Text(s[1..])
  }

  lemma {:induction false} TextAppend(a: seq<byte>, b: seq<byte>)
    ensures Text(a + b) == Text(a) + Text(b)
  {
    if a == [] {
      assert a + b == b;
    } else {
      assert (a + b)[1..] == a[1..] + b;
      TextAppend(a[1..], b);
    }
  }

  lemma {:induction false} TextOfLead(s: seq<byte>)
    ensures Text(Skip(s)) == Text(s)
  {
    if Lead(s) > 0 {
      TextOfLead(s[1..]);
      assert Skip(s) == Skip(s[1..]);
    }
  }

  predicate Clean(line: seq<byte>) {
    13 !in line && 10 !in line
  }

  lemma {:induction false} TextOfSpan(s: seq<byte>)
    ensures Text(s[..Span(s)]) == s[..Span(s)] && Clean(s[..Span(s)])
  {
    if Span(s) > 0 {
      TextOfSpan(s[1..]);
      assert s[..Span(s)][1..] == s[1..][..Span(s[1..])];
      assert s[..Span(s)] == [s[0]] + s[1..][..Span(s[1..])];
    }
  }

  lemma {:induction false} NewlineBehind(s: seq<byte>)
    requires Span(s) < |s|
    ensures Text([s[Span(s)]]) == []
  {
    if Span(s) > 0 {
      NewlineBehind(s[1..]);
    }
  }

  lemma NextLineText(s: seq<byte>)
    ensures
      match NextLine(s)
      case None => Text(s) == Skip(s) && Clean(Skip(s))
      case Some((line, rest)) => Text(s) == line + Text(rest) && Clean(line)
  {
    var t := Skip(s);
    var n := Span(t);
    TextOfLead(s);
    TextOfSpan(t);
    hide Text, Clean, Span, Skip;
    if n == |t| {
      assert t[..n] == t;
    } else {
      NewlineBehind(t);
      assert t == t[..n] + ([t[n]] + t[n + 1..]);
      TextAppend(t[..n], [t[n]] + t[n + 1..]);
      TextAppend([t[n]], t[n + 1..]);
    }
  }

  /** The lines and what remains hold no newline, and every other byte of the stream, in order. */
  lemma {:induction false} LinesHold(s: seq<byte>)
    ensures Flatten(Lines(s)) + Remainder(s) == Text(s)
    ensures Clean(Remainder(s)) && forall k | 0 <= k < |Lines(s)| :: Clean(Lines(s)[k])
    decreases |s|
  {
    NextLineText(s);
    hide Text, Clean, NextLine, Skip;
    match NextLine(s)
    case None =>
    case Some((line, rest)) =>
      LinesHold(rest);
      assert ([line] + Lines(rest))[1..] == Lines(rest);
      assert line + (Flatten(Lines(rest)) + Remainder(rest)) == (line + Flatten(Lines(rest))) + Remainder(rest);
  }

  lemma {:induction false} LeadAppend(a: seq<byte>, b: seq<byte>)
    ensures Lead(a + b) == if Lead(a) < |a| then Lead(a) else |a| + Lead(b)
  {
    if a == [] {
      assert a + b == b;
    } else {
      assert (a + b)[1..] == a[1..] + b;
      LeadAppend(a[1..], b);
    }
  }

  lemma {:induction false} SpanAppend(a: seq<byte>, b: seq<byte>)
    ensures Span(a + b) == if Span(a) < |a| then Span(a) else |a| + Span(b)
  {
    if a == [] {
      assert a + b == b;
    } else {
      assert (a + b)[1..] == a[1..] + b;
      SpanAppend(a[1..], b);
    }
  }

  lemma {:induction false} SpanIs(s: seq<byte>, n: nat)
    requires n <= |s| && (forall i | 0 <= i < n :: !IsNewline(s[i])) && (n < |s| ==> IsNewline(s[n]))
    ensures Span(s) == n
  {
    if n > 0 {
      SpanIs(s[1..], n - 1);
    }
  }

  lemma {:induction false} LeadIs(s: seq<byte>, n: nat)
    requires n <= |s| && (forall i | 0 <= i < n :: IsNewline(s[i])) && (n < |s| ==> !IsNewline(s[n]))
    ensures Lead(s) == n
  {
    if n > 0 {
      LeadIs(s[1..], n - 1);
    }
  }

  /** Every line, with the newlines in front of it, is shorter than the buffer. */
  predicate Fits(s: seq<byte>, max: nat)
    decreases |s|
  {
    && Lead(s) + Span(Skip(s)) < max
    && match NextLine(s)
       case None => true
       case Some((_, rest)) => Fits(rest, max)
  }

  predicate IsPrompt(s: seq<byte>) {
    |s| >= 2 && s[0] == 62 && s[1] == 32
  }

  const PROMPT: seq<byte> := [62, 32]

  lemma PromptFirst(rest: seq<byte>)
    ensures IsPrompt(PROMPT + rest) && Span(PROMPT) == |PROMPT|
  {
    var s := PROMPT + rest;
    assert s[0] == 62 && s[1] == 32;
    SpanIs(PROMPT, 2);
  }

  /** No line starts with the SMS prompt, which no newline terminates. */
  predicate NoPrompt(s: seq<byte>)
    decreases |s|
  {
    && !IsPrompt(Skip(s))
    && match NextLine(s)
       case None => true
       case Some((_, rest)) => NoPrompt(rest)
  }

  predicate NoNul(s: seq<byte>) {
    forall i | 0 <= i < |s| :: s[i] != 0
  }

  // ---------------------------------------------------------------------------------------
  // The state of the reader inside one call

  /**
   The buffer holds `skipped` newlines and then `held`, a piece of a line without its end, and
   `stream` is still to come. `unread` is what the call started with.
   */
  predicate Waiting(unread: seq<byte>, skipped: nat, held: seq<byte>, stream: seq<byte>) {
    && Span(held) == |held|
    && Skip(held + stream) == Skip(unread)
    && skipped + Lead(held + stream) <= Lead(unread)
  }

  /** More bytes arrive behind `held`: newlines in front are skipped, then a line may be complete. */
  lemma Arrived(unread: seq<byte>, skipped: nat, held: seq<byte>, stream: seq<byte>, count: nat)
    requires Waiting(unread, skipped, held, stream) && 0 < count <= |stream|
    ensures
      var more, left := held + stream[..count], stream[count..];
      var now := Skip(more);
      && (Span(now) == |now| ==> Waiting(unread, skipped + Lead(more), now, left))
      && (Span(now) < |now| ==> NextLine(unread) == Some((now[..Span(now)], now[Span(now) + 1..] + left)))
      && (now + left == Skip(unread) || now == [])
  {
    var more, left := held + stream[..count], stream[count..];
    var now := Skip(more);
    assert held + stream == more + left;
    assert Lead([]) == 0 && Span([]) == 0;
    hide Lead, Span;
    LeadAppend(more, left);
    if Lead(more) < |more| {
      SkipSkipped(more);
      assert Skip(more + left) == now + left;
      ArrivedInLine(unread, now, left);
    } else {
      assert now == [] && [] + left == left;
      assert Skip(more + left) == Skip(left);
    }
  }

  lemma ArrivedInLine(unread: seq<byte>, now: seq<byte>, left: seq<byte>)
    requires now != [] && Lead(now) == 0 && now + left == Skip(unread)
    ensures Lead(now + left) == 0 && Skip(now + left) == now + left
    ensures Span(now) < |now| ==> NextLine(unread) == Some((now[..Span(now)], now[Span(now) + 1..] + left))
  {
    hide Lead, Span;
    LeadAppend(now, left);
    SpanAppend(now, left);
    var n := Span(now);
    if n < |now| {
      assert (now + left)[..n] == now[..n] && (now + left)[n + 1..] == now[n + 1..] + left;
    }
  }

  /** Nothing has arrived yet. */
  lemma Untouched(unread: seq<byte>)
    ensures Waiting(unread, 0, [], unread)
  {
    assert [] + unread == unread;
  }

  /** What is held of an unfinished line leaves room in the buffer. */
  lemma StillFits(unread: seq<byte>, skipped: nat, held: seq<byte>, stream: seq<byte>, max: nat)
    requires Waiting(unread, skipped, held, stream) && Lead(unread) + Span(Skip(unread)) < max
    ensures skipped + |held| < max
  {
    SpanAppend(held, stream);
    if held != [] {
      assert !IsNewline(held[0]);
      assert Skip(held + stream) == held + stream;
    }
  }

  lemma Limits(unread: seq<byte>, max: nat)
    requires Fits(unread, max)
    ensures Lead(unread) + Span(Skip(unread)) < max
  {
  }

  /** Nothing more arrives. */
  lemma AtEnd(unread: seq<byte>, skipped: nat, held: seq<byte>)
    requires Waiting(unread, skipped, held, [])
    ensures NextLine(unread) == None && held == Skip(unread)
  {
    assert held + [] == held;
    if held != [] {
      assert !IsNewline(held[0]);
    }
  }

  /** The position of a piece of a line does not matter. */
  lemma Moved(unread: seq<byte>, skipped: nat, held: seq<byte>, stream: seq<byte>)
    requires Waiting(unread, skipped, held, stream)
    ensures Waiting(unread, 0, held, stream)
  {
  }

  lemma {:induction false} SkipSkipped(s: seq<byte>)
    ensures Skip(s) != [] ==> !IsNewline(Skip(s)[0])
    ensures Lead(Skip(s)) == 0
  {
    if s != [] && IsNewline(s[0]) {
      SkipSkipped(s[1..]);
      assert Skip(s) == Skip(s[1..]);
    }
  }

  /** A line that starts like the prompt is what it is without the newlines in front of it. */
  lemma PromptAhead(unread: seq<byte>, stream: seq<byte>)
    requires Skip(unread) == PROMPT + stream
    ensures !NoPrompt(unread) && Lines(unread) == Lines(PROMPT + stream)
  {
    PromptFirst(stream);
    SkipSkipped(unread);
    assert Skip(PROMPT + stream) == PROMPT + stream;
    assert NextLine(unread) == NextLine(PROMPT + stream);
  }
}

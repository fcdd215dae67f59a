/**
 The line reader of the AT channel (atchannel.c, `readline`): it reads whatever the tty delivers
 into a static buffer, returns one line at a time, and moves a partial line to the front of the
 buffer before it reads more. What it does is a function of the buffer, the stream and the cuts.
 */
module AtReader {
  import opened Bytes
  import opened AtLines

  // ---------------------------------------------------------------------------------------
  // The buffer

  /** Where the string at `at` of a buffer ends. */
  function StringEnd(s: seq<byte>, at: nat): (end: nat)
    requires at < |s| && s[|s| - 1] == 0
    ensures at <= end < |s| && s[end] == 0 && NoNul(s[at..end])
    decreases |s| - at
  {
    if s[at] == 0 then at
    else
      var end := StringEnd(s, at + 1);
      assert s[at..end] == [s[at]] + s[at + 1..end];
      end
  }

  function StringAt(s: seq<byte>, at: nat): (r: seq<byte>)
    requires at < |s| && s[|s| - 1] == 0
    ensures NoNul(r) && at + |r| < |s| && s[at + |r|] == 0 && r == s[at..at + |r|]
  {
    s[at..StringEnd(s, at)]
  }

  /** The buffer when a piece has been read to `at` and terminated. */
  function Stored(s: seq<byte>, at: nat, piece: seq<byte>): (r: seq<byte>)
    requires at + |piece| < |s|
    ensures |r| == |s| && (s[|s| - 1] == 0 ==> r[|s| - 1] == 0)
  {
    s[..at] + piece + [0] + s[at + |piece| + 1..]
  }

  /** The cursor behind the newlines it stands on. */
  function Skipped(s: seq<byte>, cur: nat): (r: nat)
    requires cur < |s| && s[|s| - 1] == 0
    ensures cur <= r < |s|
  {
    cur + Lead(StringAt(s, cur))
  }

  /** `findNextEOL`: a newline, or the end of a bare prompt. */
  function LineEnd(s: seq<byte>, cur: nat): (eol: Option<nat>)
    requires cur < |s| && s[|s| - 1] == 0
    ensures eol.Some? ==> cur <= eol.value < |s|
  {
    var text := StringAt(s, cur);
    if text == PROMPT then Some(cur + 2)
    else if Span(text) == |text| then None
    else Some(cur + Span(text))
  }

  // ---------------------------------------------------------------------------------------
  // One call

  /**
   How many bytes `read` delivers: at least one and no more than are left or fit, and otherwise as it
   pleases. It never sees the same number of bytes left twice, so `cuts` gives every sequence of counts.
   */
  function Count(cuts: nat -> nat, left: nat, room: nat): (n: nat)
    requires room > 0
    ensures n <= left && n <= room && (n == 0 <==> left == 0)
  {
    var n := if cuts(left) == 0 then 1 else cuts(left);
    if n <= left && n <= room then n else if left <= room then left else room
  }

  /** Buffer, cursor, and what the tty has yet to deliver. The last cell is the byte behind the buffer. */
  datatype State = State(buf: seq<byte>, cur: nat, stream: seq<byte>) {
    predicate Valid() {
      |buf| > 1 && buf[|buf| - 1] == 0 && cur < |buf|
    }

    /** The input that has not been returned: a string in the buffer, then the stream. */
    function Unread(): seq<byte>
      requires Valid()
    {
      StringAt(buf, cur) + stream
    }
  }

  /** What a call returns: a line, which may be a bare prompt, or nothing at the end of the stream. */
  datatype Got =
    | End(s: State)
    | Line(text: seq<byte>, bare: bool, s: State)

  /**
   Places a terminator over the newline and steps behind it. A bare prompt has its terminator already,
   so the step leads to whatever the buffer holds there, or out of the buffer.
   */
  function Take(s: State, eol: nat): (got: Got)
    requires s.Valid() && s.cur <= eol < |s.buf|
    ensures got.Line? && got.s.stream == s.stream && (!got.bare ==> got.s.Valid())
  {
    Line(s.buf[s.cur..eol], s.buf[eol] == 0, State(s.buf[eol := 0], eol + 1, s.stream))
  }

  /** Throws the buffer away when an over-long line has filled it. */
  function Emptied(s: State, pRead: nat): (r: State)
    requires s.Valid() && pRead < |s.buf|
    ensures r.Valid() && |r.buf| == |s.buf| && r.stream == s.stream
  {
    if pRead == |s.buf| - 1 then State(s.buf[0 := 0], 0, s.stream) else s
  }

  /** One `read`, behind which newlines are skipped. */
  function AfterRead(s: State, pRead: nat, n: nat): (r: State)
    requires s.Valid() && n <= |s.stream| && pRead + n < |s.buf|
    ensures r.Valid() && |r.buf| == |s.buf| && r.stream == s.stream[n..]
  {
    var buf := Stored(s.buf, pRead, s.stream[..n]);
    State(buf, Skipped(buf, s.cur), s.stream[n..])
  }

  /** The reading loop: a piece of a line is at the cursor, and `pRead` is where the next piece goes. */
  function Reads(cuts: nat -> nat, s: State, pRead: nat): (got: Got)
    requires s.Valid() && pRead < |s.buf|
    ensures got.Line? ==> |got.s.stream| < |s.stream|
    ensures got.End? || !got.bare ==> got.s.Valid()
    decreases |s.stream|
  {
    var e := Emptied(s, pRead);
    var at := if pRead == |s.buf| - 1 then 0 else pRead;
    if s.stream == [] then End(e)
    else
      var n := Count(cuts, |s.stream|, |s.buf| - 1 - at);
      var r := AfterRead(e, at, n);
      match LineEnd(r.buf, r.cur)
      case None => Reads(cuts, r, at + n)
      case Some(eol) => Take(r, eol)
  }

  /** The state when the string at `at`, with its terminator, has been moved to the front. */
  function MovedUp(s: State, at: nat): (r: State)
    requires s.Valid() && at < |s.buf|
    ensures r.Valid() && |r.buf| == |s.buf|
  {
    State(Stored(s.buf, 0, StringAt(s.buf, at)), 0, s.stream)
  }

  /** A line takes something away from the stream, or from the string at the cursor. */
  predicate Progress(s: State, got: Got)
    requires s.Valid()
  {
    (got.End? || !got.bare ==> got.s.Valid())
    && (got.Line? && !got.bare ==>
          || |got.s.stream| < |s.stream|
          || (got.s.stream == s.stream && |StringAt(got.s.buf, got.s.cur)| < |StringAt(s.buf, s.cur)|))
  }

  /** `readline`. */
  function ReadOne(cuts: nat -> nat, s: State): (got: Got)
    requires s.Valid()
    ensures Progress(s, got)
  {
    if s.buf[s.cur] == 0 then Reads(cuts, State(s.buf[0 := 0], 0, s.stream), 0)
    else
      var cur := Skipped(s.buf, s.cur);
      match LineEnd(s.buf, cur)
      case None => Reads(cuts, MovedUp(s, cur), |StringAt(s.buf, cur)|)
      case Some(eol) =>
        TakeShortens(s, cur, eol);
        Take(s.(cur := cur), eol)
  }

  /** Line after line until the stream ends, or up to a bare prompt. */
  datatype Run = Run(lines: seq<seq<byte>>, met: bool, rest: seq<byte>)

  function RunFrom(cuts: nat -> nat, s: State): Run
    requires s.Valid()
    decreases |s.stream|, |StringAt(s.buf, s.cur)|
  {
    match ReadOne(cuts, s)
    case End(s') => Run([], false, s'.Unread())
    case Line(text, bare, s') =>
      if bare then Run([text], true, s'.stream)
      else
        var r := RunFrom(cuts, s');
        Run([text] + r.lines, r.met, r.rest)
  }

  lemma {:induction false} StringIs(s: seq<byte>, at: nat, text: seq<byte>)
    requires at + |text| < |s| && s[|s| - 1] == 0
    requires s[at..at + |text|] == text && NoNul(text) && s[at + |text|] == 0
    ensures StringEnd(s, at) == at + |text| && StringAt(s, at) == text
    decreases |text|
  {
    if text != [] {
      assert s[at] == text[0] && s[at + 1..at + |text|] == text[1..];
      StringIs(s, at + 1, text[1..]);
    }
  }

  lemma TakeShortens(s: State, cur: nat, eol: nat)
    requires s.Valid() && cur == Skipped(s.buf, s.cur) && LineEnd(s.buf, cur) == Some(eol)
    ensures Progress(s, Take(s.(cur := cur), eol))
  {
    hide Lead, Span, StringEnd, StringAt, LineEnd;
    StringFrom(s.buf, s.cur, cur);
    LineEndInside(s.buf, cur);
    if s.buf[eol] != 0 {
      StringBehind(s.buf, cur, eol);
    }
  }

  /** A line ends inside the string, or is a bare prompt and ends with it. */
  lemma LineEndInside(s: seq<byte>, cur: nat)
    requires cur < |s| && s[|s| - 1] == 0
    ensures
      var text := StringAt(s, cur);
      match LineEnd(s, cur)
      case None => text != PROMPT && Span(text) == |text|
      case Some(eol) =>
        if s[eol] == 0 then text == PROMPT && eol == cur + |text|
        else text != PROMPT && eol == cur + Span(text) && Span(text) < |text|
  {
    hide Lead, Span, StringEnd, StringAt;
    var text := StringAt(s, cur);
    if text != PROMPT && Span(text) < |text| {
      assert text[Span(text)] == s[cur + Span(text)];
    }
  }

  /** What a terminator leaves of a string. */
  lemma StringBehind(s: seq<byte>, cur: nat, eol: nat)
    requires cur < |s| && s[|s| - 1] == 0 && cur <= eol < cur + |StringAt(s, cur)|
    ensures eol + 1 < |s| && s[eol := 0][|s| - 1] == 0
    ensures StringAt(s[eol := 0], eol + 1) == StringAt(s, cur)[eol + 1 - cur..]
  {
    hide StringEnd, StringAt;
    var end, r := cur + |StringAt(s, cur)|, s[eol := 0];
    StringFrom(s, cur, eol + 1);
    var text := StringAt(s, cur)[eol + 1 - cur..];
    assert r[eol + 1..end] == text;
    StringIs(r, eol + 1, text);
  }

  /** The string at a place inside a string. */
  lemma StringFrom(s: seq<byte>, at: nat, from: nat)
    requires at < |s| && s[|s| - 1] == 0 && at <= from <= at + |StringAt(s, at)|
    ensures StringAt(s, from) == StringAt(s, at)[from - at..] == s[from..at + |StringAt(s, at)|]
  {
    hide StringEnd, StringAt;
    var whole := StringAt(s, at);
    StringIs(s, from, whole[from - at..]);
  }

  // ---------------------------------------------------------------------------------------
  // What a call returns, in terms of the unread input

  /** A line of the unread input, nothing at its end, or a bare prompt where the next line starts like one. */
  ghost predicate Returned(unread: seq<byte>, got: Got) {
    match got
    case End(s) =>
      s.Valid() && s.stream == [] && NextLine(unread) == None && s.Unread() == Skip(unread) != PROMPT
    case Line(text, bare, s) =>
      && NoNul(s.stream)
      && if bare then text == PROMPT && Skip(unread) == PROMPT + s.stream
         else s.Valid() && NextLine(unread) == Some((text, s.Unread()))
  }

  /** The buffer holds `held` between cursor and read pointer. */
  ghost predicate Holding(s: State, pRead: nat, held: seq<byte>) {
    s.Valid() && s.cur + |held| == pRead < |s.buf| && NoNul(s.stream) && StringAt(s.buf, s.cur) == held
  }

  lemma AfterReadHolds(s: State, pRead: nat, held: seq<byte>, n: nat)
    requires Holding(s, pRead, held) && n <= |s.stream| && pRead + n < |s.buf|
    ensures
      var more := held + s.stream[..n];
      var r := AfterRead(s, pRead, n);
      r.cur == s.cur + Lead(more) && r.stream == s.stream[n..] && Holding(r, pRead + n, Skip(more))
  {
    hide StringEnd, StringAt, Stored, Lead;
    var piece := s.stream[..n];
    var buf := Stored(s.buf, pRead, piece);
    StoredAt(s.buf, s.cur, pRead, piece);
    assert s.buf[s.cur..pRead] == held;
    StringIs(buf, s.cur, held + piece);
    StringFrom(buf, s.cur, s.cur + Lead(held + piece));
  }

  /** What has been stored, seen from a place in front of it. */
  lemma StoredAt(s: seq<byte>, from: nat, at: nat, piece: seq<byte>)
    requires from <= at && at + |piece| < |s|
    ensures Stored(s, at, piece)[from..at + |piece|] == s[from..at] + piece && Stored(s, at, piece)[at + |piece|] == 0
  {
    var r, to := Stored(s, at, piece), at + |piece|;
    var a, b := r[from..to], s[from..at] + piece;
    forall i | 0 <= i < |a|
      ensures a[i] == b[i]
    {
      assert r[from + i] == if from + i < at then s[from + i] else piece[from + i - at];
    }
  }

  lemma StoredIs(s: seq<byte>, at: nat, piece: seq<byte>, r: seq<byte>)
    requires at + |piece| < |s| == |r| && r[at + |piece|] == 0
    requires forall i | 0 <= i < |r| && (i < at || at + |piece| < i) :: r[i] == s[i]
    requires forall i | at <= i < at + |piece| :: r[i] == piece[i - at]
    ensures r == Stored(s, at, piece)
  {
    var w := Stored(s, at, piece);
    forall i | 0 <= i < |r|
      ensures r[i] == w[i]
    {
    }
  }

  /** A complete line, or a bare prompt, has been found in what is unread. */
  lemma TakeReturns(unread: seq<byte>, s: State, pRead: nat, now: seq<byte>, eol: nat)
    requires Holding(s, pRead, now) && LineEnd(s.buf, s.cur) == Some(eol)
    requires Span(now) < |now| ==> NextLine(unread) == Some((now[..Span(now)], now[Span(now) + 1..] + s.stream))
    requires now == PROMPT ==> now + s.stream == Skip(unread)
    ensures Returned(unread, Take(s, eol))
  {
    hide StringEnd, StringAt, LineEnd, Span, Lead, NextLine, NoNul, Skip, Take, Returned, PROMPT;
    LineEndInside(s.buf, s.cur);
    if s.buf[eol] != 0 {
      TakesLine(unread, s, pRead, now, eol);
    } else {
      TakesPrompt(unread, s, pRead, eol);
    }
  }

  lemma TakesLine(unread: seq<byte>, s: State, pRead: nat, now: seq<byte>, eol: nat)
    requires Holding(s, pRead, now) && s.cur <= eol < pRead && s.buf[eol] != 0
    requires var n := eol - s.cur; NextLine(unread) == Some((now[..n], now[n + 1..] + s.stream))
    ensures Returned(unread, Take(s, eol))
  {
    hide StringEnd, StringAt, NextLine, Skip;
    StringBehind(s.buf, s.cur, eol);
    assert s.buf[s.cur..pRead] == now;
    assert s.buf[s.cur..eol] == now[..eol - s.cur];
  }

  lemma TakesPrompt(unread: seq<byte>, s: State, pRead: nat, eol: nat)
    requires Holding(s, pRead, PROMPT) && eol == pRead && Skip(unread) == PROMPT + s.stream
    ensures Returned(unread, Take(s, eol))
  {
    hide StringEnd, StringAt, NextLine, Skip;
    assert s.buf[s.cur..pRead] == PROMPT;
  }

  lemma {:induction false} ReadsReturn(cuts: nat -> nat, unread: seq<byte>, s: State, pRead: nat, held: seq<byte>)
    requires Holding(s, pRead, held) && Waiting(unread, s.cur, held, s.stream) && held != PROMPT
    requires Lead(unread) + Span(Skip(unread)) < |s.buf| - 1
    ensures Returned(unread, Reads(cuts, s, pRead))
    decreases |s.stream|
  {
    hide StringEnd, StringAt, LineEnd, Span, Lead, NextLine, AfterRead, Take, Waiting, Skip, NoNul, PROMPT, Reads,
        Returned, Count;
    StillFits(unread, s.cur, held, s.stream, |s.buf| - 1);
    ReadsStep(cuts, s, pRead);
    if s.stream == [] {
      EndReturns(unread, s, pRead, held);
    } else {
      var n := Count(cuts, |s.stream|, |s.buf| - 1 - pRead);
      var r := AfterRead(s, pRead, n);
      AfterReadHolds(s, pRead, held, n);
      ReadReturns(unread, s, pRead, held, n);
      if LineEnd(r.buf, r.cur) == None {
        ReadsReturn(cuts, unread, r, pRead + n, Skip(held + s.stream[..n]));
      }
    }
  }

  /** One turn of the reading loop. */
  lemma ReadsTurn(cuts: nat -> nat, s: State, pRead: nat)
    requires s.Valid() && pRead < |s.buf|
    ensures
      var e, at := Emptied(s, pRead), if pRead == |s.buf| - 1 then 0 else pRead;
      var n := Count(cuts, |s.stream|, |s.buf| - 1 - at);
      if s.stream == [] then n == 0 && Reads(cuts, s, pRead) == End(e)
      else
        0 < n <= |s.stream| && at + n < |s.buf|
        && var r := AfterRead(e, at, n);
           Reads(cuts, s, pRead)
           == match LineEnd(r.buf, r.cur) case None => Reads(cuts, r, at + n) case Some(eol) => Take(r, eol)
  {
    hide StringEnd, StringAt, LineEnd, Take, AfterRead, Emptied, Skipped, Stored, Count, NoNul, Span, Lead;
  }

  /** One turn of the reading loop, when there is room. */
  lemma ReadsStep(cuts: nat -> nat, s: State, pRead: nat)
    requires s.Valid() && pRead < |s.buf| - 1
    ensures s.stream == [] ==> Reads(cuts, s, pRead) == End(s)
    ensures s.stream != [] ==>
              var n := Count(cuts, |s.stream|, |s.buf| - 1 - pRead);
              var r := AfterRead(s, pRead, n);
              && 0 < n <= |s.stream| && pRead + n < |s.buf|
              && Reads(cuts, s, pRead)
                 == match LineEnd(r.buf, r.cur) case None => Reads(cuts, r, pRead + n) case Some(eol) => Take(r, eol)
  {
    hide StringEnd, StringAt, LineEnd, Take, AfterRead, Reads;
    ReadsTurn(cuts, s, pRead);
  }

  lemma EndReturns(unread: seq<byte>, s: State, pRead: nat, held: seq<byte>)
    requires Holding(s, pRead, held) && Waiting(unread, s.cur, held, s.stream) && held != PROMPT && s.stream == []
    ensures Returned(unread, End(s))
  {
    hide StringEnd, StringAt, Span, Lead, NextLine, Waiting, Skip, NoNul, PROMPT;
    AtEnd(unread, s.cur, held);
    assert held + [] == held;
  }

  /** One read: the line is found, or a longer piece of it is held. */
  lemma ReadReturns(unread: seq<byte>, s: State, pRead: nat, held: seq<byte>, n: nat)
    requires Holding(s, pRead, held) && Waiting(unread, s.cur, held, s.stream)
    requires 0 < n <= |s.stream| && pRead + n < |s.buf|
    ensures
      var r, now := AfterRead(s, pRead, n), Skip(held + s.stream[..n]);
      match LineEnd(r.buf, r.cur)
      case None => Waiting(unread, r.cur, now, r.stream) && now != PROMPT
      case Some(eol) => Returned(unread, Take(r, eol))
  {
    hide StringEnd, StringAt, LineEnd, Span, Lead, NextLine, AfterRead, Take, Waiting, Skip, NoNul, PROMPT, Returned;
    var r, now := AfterRead(s, pRead, n), Skip(held + s.stream[..n]);
    AfterReadHolds(s, pRead, held, n);
    Arrived(unread, s.cur, held, s.stream, n);
    LineEndInside(r.buf, r.cur);
    PromptNotEmpty();
    if LineEnd(r.buf, r.cur).Some? {
      TakeReturns(unread, r, pRead + n, now, LineEnd(r.buf, r.cur).value);
    }
  }

  lemma PromptNotEmpty()
    ensures PROMPT != [] && Span(PROMPT) == |PROMPT|
  {
    SpanIs(PROMPT, 2);
  }

  /**
   As long as lines fit the buffer, a call returns the first line of what is unread, whatever the
   cuts and however much the buffer holds already, unless a bare prompt is met.
   */
  lemma OneLine(cuts: nat -> nat, s: State)
    requires s.Valid() && NoNul(s.stream) && Fits(s.Unread(), |s.buf| - 1)
    ensures Returned(s.Unread(), ReadOne(cuts, s))
  {
    hide StringEnd, StringAt, LineEnd, Span, Lead, NextLine, Take, Waiting, Reads, Skip, PROMPT, Returned;
    Limits(s.Unread(), |s.buf| - 1);
    if s.buf[s.cur] == 0 {
      OneLineRead(cuts, s);
    } else {
      OneLineHeld(cuts, s);
    }
  }

  /** Nothing is left of an earlier read. */
  lemma OneLineRead(cuts: nat -> nat, s: State)
    requires s.Valid() && NoNul(s.stream) && s.buf[s.cur] == 0
    requires Lead(s.Unread()) + Span(Skip(s.Unread())) < |s.buf| - 1
    ensures s.Unread() == s.stream && Returned(s.stream, ReadOne(cuts, s))
  {
    hide StringEnd, StringAt, LineEnd, Span, Lead, NextLine, Waiting, Reads, Skip, Returned;
    PromptNotEmpty();
    StringIs(s.buf, s.cur, []);
    StringIs(s.buf[0 := 0], 0, []);
    assert [] + s.stream == s.stream;
    Untouched(s.stream);
    ReadsReturn(cuts, s.stream, State(s.buf[0 := 0], 0, s.stream), 0, []);
  }

  /**
   A line that has filled the buffer without coming to its end is dropped as far as it has come: the call goes on
   as if it had begun with an empty buffer, and returns the first line of what is still to come.
   */
  lemma OverLongDropped(cuts: nat -> nat, s: State)
    requires s.Valid() && NoNul(s.stream) && Lead(s.stream) + Span(Skip(s.stream)) < |s.buf| - 1
    ensures Reads(cuts, s, |s.buf| - 1) == Reads(cuts, State(s.buf[0 := 0], 0, s.stream), 0)
    ensures Returned(s.stream, Reads(cuts, s, |s.buf| - 1))
  {
    hide StringEnd, StringAt, LineEnd, Span, Lead, NextLine, Waiting, Reads, Skip, Returned;
    StartsAgain(cuts, s);
    PromptNotEmpty();
    StringIs(s.buf[0 := 0], 0, []);
    Untouched(s.stream);
    ReadsReturn(cuts, s.stream, State(s.buf[0 := 0], 0, s.stream), 0, []);
  }

  lemma StartsAgain(cuts: nat -> nat, s: State)
    requires s.Valid()
    ensures Reads(cuts, s, |s.buf| - 1) == Reads(cuts, State(s.buf[0 := 0], 0, s.stream), 0)
  {
    EmptiedIs(s);
    hide *;
    SameTurn(cuts, s, |s.buf| - 1, State(s.buf[0 := 0], 0, s.stream), 0);
  }

  lemma SameTurn(cuts: nat -> nat, s: State, p: nat, t: State, q: nat)
    requires s.Valid() && t.Valid() && |s.buf| == |t.buf| && s.stream == t.stream && p == |s.buf| - 1 && q == 0
    requires Emptied(s, p) == Emptied(t, q)
    ensures Reads(cuts, s, p) == Reads(cuts, t, q)
  {
    hide *;
    ReadsTurn(cuts, s, p);
    ReadsTurn(cuts, t, q);
  }

  lemma EmptiedIs(s: State)
    requires s.Valid()
    ensures Emptied(s, |s.buf| - 1) == State(s.buf[0 := 0], 0, s.stream)
    ensures Emptied(State(s.buf[0 := 0], 0, s.stream), 0) == State(s.buf[0 := 0], 0, s.stream)
  {
  }

  /** There is something left of an earlier read. */
  lemma OneLineHeld(cuts: nat -> nat, s: State)
    requires s.Valid() && NoNul(s.stream) && s.buf[s.cur] != 0
    requires Lead(s.Unread()) + Span(Skip(s.Unread())) < |s.buf| - 1
    ensures Returned(s.Unread(), ReadOne(cuts, s))
  {
    hide StringEnd, StringAt, LineEnd, Span, Lead, NextLine, Take, Waiting, Reads, PROMPT, Returned, MovedUp, NoNul,
        Skip;
    var unread, cur := s.Unread(), Skipped(s.buf, s.cur);
    var now := Skip(StringAt(s.buf, s.cur));
    HeldFirst(s);
    LineEndInside(s.buf, cur);
    if LineEnd(s.buf, cur) == None {
      MovedUpHolds(s, cur);
      MovedUpCur(s, cur);
      ReadsReturn(cuts, unread, MovedUp(s, cur), |now|, now);
    } else {
      PromptNotEmpty();
      TakeReturns(unread, s.(cur := cur), cur + |now|, now, LineEnd(s.buf, cur).value);
    }
  }

  /** A string in front of the stream, seen as an arrival. */
  lemma FirstPiece(text: seq<byte>, stream: seq<byte>)
    requires text != []
    ensures
      var unread, now := text + stream, Skip(text);
      && (Span(now) == |now| ==> Waiting(unread, 0, now, stream))
      && (Span(now) < |now| ==> NextLine(unread) == Some((now[..Span(now)], now[Span(now) + 1..] + stream)))
      && (now + stream == Skip(unread) || now == [])
  {
    hide Span, Lead, NextLine, Waiting, Skip;
    var unread := text + stream;
    assert [] + unread[..|text|] == text && unread[|text|..] == stream;
    Untouched(unread);
    Arrived(unread, 0, [], unread, |text|);
    if Span(Skip(text)) == |Skip(text)| {
      Moved(unread, 0 + Lead(text), Skip(text), stream);
    }
  }

  /** What an earlier read has left, seen as an arrival. */
  lemma HeldFirst(s: State)
    requires s.Valid() && NoNul(s.stream) && s.buf[s.cur] != 0
    ensures
      var unread, cur, now := s.Unread(), Skipped(s.buf, s.cur), Skip(StringAt(s.buf, s.cur));
      && StringAt(s.buf, cur) == now
      && (Span(now) == |now| ==> Waiting(unread, 0, now, s.stream))
      && (Span(now) < |now| ==> NextLine(unread) == Some((now[..Span(now)], now[Span(now) + 1..] + s.stream)))
      && (now + s.stream == Skip(unread) || now == [])
  {
    hide StringEnd, StringAt, Span, Lead, NextLine, Waiting, NoNul;
    FirstPiece(StringAt(s.buf, s.cur), s.stream);
    StringFrom(s.buf, s.cur, Skipped(s.buf, s.cur));
  }

  lemma MovedUpCur(s: State, cur: nat)
    requires s.Valid() && cur < |s.buf|
    ensures MovedUp(s, cur).cur == 0 && MovedUp(s, cur).stream == s.stream
  {
  }

  lemma MovedUpHolds(s: State, cur: nat)
    requires s.Valid() && cur < |s.buf| && NoNul(s.stream)
    ensures Holding(MovedUp(s, cur), |StringAt(s.buf, cur)|, StringAt(s.buf, cur))
  {
    hide StringEnd, StringAt, Stored;
    var text := StringAt(s.buf, cur);
    StoredAt(s.buf, 0, 0, text);
    assert s.buf[0..0] + text == text;
    StringIs(Stored(s.buf, 0, text), 0, text);
  }

  // ---------------------------------------------------------------------------------------
  // The reader

  class LineReader {
    const buf: array<byte>         // s_ATBuffer; its last cell is the byte behind cm_recv_buf
    const cuts: nat -> nat         // how `read` cuts the stream
    var cur: nat                   // s_ATBufferCur
    var stream: seq<byte>          // what the tty has yet to deliver

    ghost predicate Valid()
      reads this, buf
    {
      Now().Valid()
    }

    ghost function Now(): State
      reads this, buf
    {
      State(buf[..], cur, stream)
    }

    constructor (size: nat, input: seq<byte>, cuts: nat -> nat)
      requires size > 0
      ensures Valid() && Now() == State(seq(size + 1, _ => 0), 0, input) && this.cuts == cuts
      ensures fresh(buf)
    {
      this.buf, this.cuts, cur, stream := new byte[size + 1](_ => 0), cuts, 0, input;
    }

    /** `read`, behind which goes a terminator. */
    method Read(at: nat) returns (count: nat)
      requires Valid() && at < buf.Length - 1
      modifies buf, this`stream
      ensures Valid() && count == Count(cuts, |old(stream)|, buf.Length - 1 - at)
      ensures stream == old(stream)[count..]
      ensures buf[..] == if count == 0 then old(buf[..]) else Stored(old(buf[..]), at, old(stream)[..count])
    {
      hide Stored;
      count := Count(cuts, |stream|, buf.Length - 1 - at);
      if count > 0 {
        forall i | 0 <= i < count {
          buf[at + i] := stream[i];
        }
        buf[at + count] := 0;
        StoredIs(old(buf[..]), at, stream[..count], buf[..]);
        stream := stream[count..];
      }
    }

    /** Skips the newlines at the cursor. */
    method SkipNewlines()
      requires Valid()
      modifies this`cur
      ensures Valid() && cur == Skipped(buf[..], old(cur))
    {
      hide StringEnd, StringAt;
      ghost var start, s := cur, StringAt(buf[..], cur);
      while IsNewline(buf[cur])
        invariant start <= cur <= start + |s|
        invariant forall i | 0 <= i < cur - start :: IsNewline(s[i])
        decreases start + |s| - cur
      {
        assert s[cur - start] == buf[cur];
        cur := cur + 1;
      }
      assert cur - start < |s| ==> s[cur - start] == buf[cur];
      LeadIs(s, cur - start);
    }

    /** The end of the line at the cursor: a newline, or the end of a bare prompt. */
    method FindNextEOL() returns (eol: Option<nat>)
      requires Valid()
      ensures eol == LineEnd(buf[..], cur)
    {
      hide StringEnd, StringAt;
      ghost var s := StringAt(buf[..], cur);
      assert forall i | 0 <= i < |s| :: buf[cur + i] == s[i] != 0;
      if buf[cur] == 62 && buf[cur + 1] == 32 && buf[cur + 2] == 0 {
        assert s == [62, 32];
        return Some(cur + 2);
      }
      var at := cur;
      while buf[at] != 0 && !IsNewline(buf[at])
        invariant cur <= at <= cur + |s|
        invariant forall i | 0 <= i < at - cur :: !IsNewline(s[i])
        decreases cur + |s| - at
      {
        at := at + 1;
      }
      SpanIs(s, at - cur);
      return if buf[at] == 0 then None else Some(at);
    }

    /** Moves the string at the cursor to the front of the buffer. */
    method MoveUp() returns (len: nat)
      requires Valid()
      modifies this`cur, buf
      ensures Valid() && Now() == MovedUp(old(Now()), old(cur)) && len == |StringAt(old(buf[..]), old(cur))|
    {
      hide StringEnd, StringAt, Stored;
      ghost var s := StringAt(buf[..], cur);
      assert forall i | 0 <= i < |s| :: buf[cur + i] == s[i] != 0;
      len := 0;
      while buf[cur + len] != 0
        invariant len <= |s|
        decreases |s| - len
      {
        len := len + 1;
      }
      forall i | 0 <= i < len + 1 {
        buf[i] := buf[cur + i];
      }
      cur := 0;
      StoredIs(old(buf[..]), 0, s, buf[..]);
    }

    /** Places a terminator and steps behind it. */
    method TakeLine(eol: nat) returns (line: seq<byte>, bare: bool)
      requires Valid() && cur <= eol < buf.Length
      modifies this`cur, buf
      ensures Line(line, bare, Now()) == Take(old(Now()), eol)
    {
      line, bare := buf[cur..eol], buf[eol] == 0;
      buf[eol] := 0;
      cur := eol + 1;
    }

    /** Throws the buffer away when an over-long line has filled it. */
    method MakeRoom(at: nat) returns (pRead: nat)
      requires Valid() && at < buf.Length
      modifies this`cur, buf
      ensures Valid() && Now() == Emptied(old(Now()), at) && pRead == if at == buf.Length - 1 then 0 else at
    {
      pRead := at;
      if buf.Length - 1 - pRead == 0 {
        cur := 0;
        buf[0] := 0;
        pRead := 0;
      }
    }

    /** Looks at what an earlier read left in the buffer. */
    method Leftover() returns (eol: Option<nat>, pRead: nat)
      requires Valid()
      modifies this`cur, buf
      ensures Valid() && pRead < buf.Length && (eol.Some? ==> cur <= eol.value < buf.Length)
      ensures ReadOne(cuts, old(Now())) == Rest(eol, pRead)
    {
      hide Reads, Take, LineEnd, StringEnd, StringAt, Stored;
      eol, pRead := None, 0;
      if buf[cur] == 0 {
        cur := 0;
        buf[0] := 0;
      } else {
        SkipNewlines();
        eol := FindNextEOL();
        if eol == None {
          pRead := MoveUp();
        }
      }
    }

    /** What a call returns from here on: with a line found, or with a piece of one held. */
    ghost function Rest(eol: Option<nat>, pRead: nat): Got
      requires Valid() && pRead < buf.Length && (eol.Some? ==> cur <= eol.value < buf.Length)
      reads this, buf
    {
      if eol.Some? then Take(Now(), eol.value) else Reads(cuts, Now(), pRead)
    }

    /** `readline`: a line, which may be a bare prompt, or nothing when the input ends first. */
    method ReadLine() returns (line: Option<seq<byte>>, bare: bool)
      requires Valid()
      modifies this, buf
      ensures
        match ReadOne(cuts, old(Now()))
        case End(s) => line == None && !bare && Now() == s && Valid()
        case Line(text, b, s) => line == Some(text) && bare == b && Now() == s && (!bare ==> Valid())
    {
      hide Reads, ReadOne, Take, LineEnd, StringEnd, StringAt, Stored, Skipped, AfterRead, Emptied;
      var eol: Option<nat>, pRead: nat := Leftover();
      while eol == None
        invariant Valid() && pRead < buf.Length && (eol.Some? ==> cur <= eol.value < buf.Length)
        invariant ReadOne(cuts, old(Now())) == Rest(eol, pRead)
        decreases |stream|, if eol == None then 1 else 0
      {
        var count: nat;
        count, eol, pRead := ReadMore(pRead);
        if count == 0 {
          return None, false;
        }
      }
      var l;
      l, bare := TakeLine(eol.value);
      line := Some(l);
    }

    /** Reads once and looks again. */
    method ReadMore(from: nat) returns (count: nat, eol: Option<nat>, pRead: nat)
      requires Valid() && from < buf.Length
      modifies this, buf
      ensures Valid() && pRead < buf.Length && (eol.Some? ==> cur <= eol.value < buf.Length)
      ensures count == 0 ==> Reads(cuts, old(Now()), from) == End(Now())
      ensures count > 0 ==> |stream| < |old(stream)| && Reads(cuts, old(Now()), from) == Rest(eol, pRead)
    {
      hide Take, LineEnd, StringEnd, StringAt, Stored, Skipped, Emptied, Reads, Count;
      ReadsTurn(cuts, Now(), from);
      pRead := MakeRoom(from);
      eol := None;
      count := Read(pRead);
      if count > 0 {
        SkipNewlines();
        eol := FindNextEOL();
        pRead := pRead + count;
      }
    }

    /** The reader loop: line after line until the channel closes, here at most up to a bare prompt. */
    method ReadAll() returns (lines: seq<seq<byte>>, met: bool)
      requires Valid()
      modifies this, buf
      ensures
        var run := RunFrom(cuts, old(Now()));
        && lines == run.lines && met == run.met
        && (if met then stream == run.rest else Valid() && Now().Unread() == run.rest)
    {
      hide ReadOne, StringEnd, StringAt;
      lines := [];
      while true
        invariant Valid()
        invariant
          var r := RunFrom(cuts, Now());
          RunFrom(cuts, old(Now())) == Run(lines + r.lines, r.met, r.rest)
        decreases |stream|, |StringAt(buf[..], cur)|
      {
        ghost var before := Now();
        var line;
        line, met := ReadLine();
        if line == None {
          return lines, false;
        }
        ghost var more := if met then [line.value] else [line.value] + RunFrom(cuts, Now()).lines;
        assert more == RunFrom(cuts, before).lines;
        assert lines + more == if met then lines + [line.value] else (lines + [line.value]) + more[1..];
        lines := lines + [line.value];
        if met {
          return lines, true;
        }
      }
    }
  }
}

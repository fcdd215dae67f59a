/**
 What the cuts of the stream matter to the line reader of the AT channel (atchannel.c): nothing, as
 long as no line starts like the SMS prompt, which no newline terminates; and exactly when they do.
 */
module AtCuts {
  import opened Bytes
  import opened AtLines
  import opened AtReader

  /** A run, however the stream is cut: all lines, or those up to a bare prompt. */
  lemma {:induction false} RunLines(cuts: nat -> nat, s: State)
    requires s.Valid() && NoNul(s.stream) && Fits(s.Unread(), |s.buf| - 1)
    ensures
      var r, unread := RunFrom(cuts, s), s.Unread();
      if r.met then
        && !NoPrompt(unread) && r.lines != [] && r.lines[|r.lines| - 1] == PROMPT
        && Lines(unread) == r.lines[..|r.lines| - 1] + Lines(PROMPT + r.rest)
      else r.lines == Lines(unread) && r.rest == Remainder(unread)
    decreases |s.stream|, |StringAt(s.buf, s.cur)|
  {
    hide StringEnd, StringAt, ReadOne, NextLine, Skip, IsPrompt, State.Unread;
    OneLine(cuts, s);
    match ReadOne(cuts, s)
    case End(s') =>
    case Line(text, bare, s') =>
      if bare {
        PromptAhead(s.Unread(), s'.stream);
      } else {
        SameBuffer(cuts, s);
        RunLines(cuts, s');
        var r := RunFrom(cuts, s').lines;
        if r != [] {
          assert ([text] + r)[..|r|] == [text] + r[..|r| - 1];
        }
      }
  }

  /** The size of the buffer never changes. */
  lemma {:induction false} SameSize(cuts: nat -> nat, s: State, pRead: nat)
    requires s.Valid() && pRead < |s.buf|
    ensures |Reads(cuts, s, pRead).s.buf| == |s.buf|
    decreases |s.stream|
  {
    hide StringEnd, StringAt, LineEnd, AfterRead, Emptied, Reads, Count;
    ReadsTurn(cuts, s, pRead);
    var e, at := Emptied(s, pRead), if pRead == |s.buf| - 1 then 0 else pRead;
    var n := Count(cuts, |s.stream|, |s.buf| - 1 - at);
    if n > 0 {
      var r := AfterRead(e, at, n);
      if LineEnd(r.buf, r.cur) == None {
        SameSize(cuts, r, at + n);
      }
    }
  }

  lemma SameBuffer(cuts: nat -> nat, s: State)
    requires s.Valid()
    ensures |ReadOne(cuts, s).s.buf| == |s.buf|
  {
    hide StringEnd, StringAt, LineEnd, Reads, MovedUp, Skipped;
    if s.buf[s.cur] == 0 {
      SameSize(cuts, State(s.buf[0 := 0], 0, s.stream), 0);
    } else {
      var cur := Skipped(s.buf, s.cur);
      if LineEnd(s.buf, cur) == None {
        SameSize(cuts, MovedUp(s, cur), |StringAt(s.buf, cur)|);
      }
    }
  }

  // ---------------------------------------------------------------------------------------
  // When the cuts do not matter

  /** A line that starts like the prompt goes on, if only with its newline. */
  predicate PromptInside(s: seq<byte>)
    decreases |s|
  {
    match NextLine(s)
    case None => IsPrompt(Skip(s)) && Skip(s) != PROMPT
    case Some((_, rest)) => IsPrompt(Skip(s)) || PromptInside(rest)
  }

  /** What is left of the stream is nothing but a prompt. */
  predicate EndsInPrompt(s: seq<byte>) {
    Remainder(s) == PROMPT
  }

  function QuietRun(unread: seq<byte>): Run {
    if EndsInPrompt(unread) then Run(Lines(unread) + [PROMPT], true, [])
    else Run(Lines(unread), false, Remainder(unread))
  }

  lemma {:induction false} Quiet(cuts: nat -> nat, s: State)
    requires s.Valid() && NoNul(s.stream) && Fits(s.Unread(), |s.buf| - 1) && !PromptInside(s.Unread())
    ensures RunFrom(cuts, s) == QuietRun(s.Unread())
    decreases |s.stream|, |StringAt(s.buf, s.cur)|
  {
    hide StringEnd, StringAt, ReadOne, Skip, State.Unread, Lead, Span;
    OneLine(cuts, s);
    match ReadOne(cuts, s)
    case End(s') =>
    case Line(text, bare, s') =>
      if bare {
        PromptLine(s.Unread(), s'.stream);
      } else {
        SameBuffer(cuts, s);
        Quiet(cuts, s');
        assert Lines(s.Unread()) == [text] + Lines(s'.Unread());
      }
  }

  /** What follows a line that starts like the prompt. */
  lemma PromptLine(unread: seq<byte>, rest: seq<byte>)
    requires Skip(unread) == PROMPT + rest
    ensures IsPrompt(Skip(unread)) && (rest == [] ==> NextLine(unread) == None && Skip(unread) == PROMPT)
  {
    PromptFirst(rest);
    assert rest == [] ==> PROMPT + rest == PROMPT;
  }

  // ---------------------------------------------------------------------------------------
  // Cuts that meet a prompt, and cuts that do not

  /** Everything in the buffer has been returned. */
  predicate Consumed(s: State) {
    s.Valid() && s.buf[s.cur] == 0
  }

  /** One byte at a time. */
  function Ones(left: nat): nat {
    1
  }

  /** One byte at a time, but a space never without the byte behind it. */
  function Spaced(all: seq<byte>): nat -> nat {
    left => if 0 < left <= |all| && all[|all| - left] == 32 then 2 else 1
  }

  /** What is held when a byte, or a space and a byte, arrive. */
  lemma ArrivesShort(held: seq<byte>, piece: seq<byte>)
    requires Span(held) == |held| && (|piece| == 1 || (|piece| == 2 && piece[0] == 32))
    ensures
      var now := Skip(held + piece);
      && (held != [] ==> now == held + piece)
      && (held == [] && |piece| == 1 ==> now == if IsNewline(piece[0]) then [] else piece)
      && (held == [] && |piece| == 2 ==> now == piece)
      && Span(now) >= |now| - 1
      && (Span(now) < |now| ==> now != [] && IsNewline(now[|now| - 1]))
  {
    var more := held + piece;
    if held != [] {
      assert !IsNewline(held[0]) && more[0] == held[0];
      assert Lead(more) == 0;
    } else {
      assert more == piece;
      assert |piece| == 1 ==> piece[1..] == [];
    }
    SpanAppend(held, piece);
    LastByte(piece);
  }

  lemma LastByte(piece: seq<byte>)
    requires |piece| == 1 || (|piece| == 2 && piece[0] == 32)
    ensures Span(piece) == if IsNewline(piece[|piece| - 1]) then |piece| - 1 else |piece|
  {
    SpanIs(piece, if IsNewline(piece[|piece| - 1]) then |piece| - 1 else |piece|);
  }

  /** A line that ends with what has been read leaves nothing behind. */
  lemma TakeConsumes(s: State, pRead: nat, now: seq<byte>, eol: nat)
    requires Holding(s, pRead, now) && LineEnd(s.buf, s.cur) == Some(eol) && s.buf[eol] != 0 && Span(now) == |now| - 1
    ensures Consumed(Take(s, eol).s)
  {
    hide StringEnd, LineEnd, Span;
    LineEndInside(s.buf, s.cur);
    assert s.buf[s.cur + |now|] == 0;
  }

  lemma {:induction false} ReadsOnes(unread: seq<byte>, s: State, pRead: nat, held: seq<byte>)
    requires Holding(s, pRead, held) && Waiting(unread, s.cur, held, s.stream) && !IsPrompt(held)
    requires Lead(unread) + Span(Skip(unread)) < |s.buf| - 1
    ensures
      var got := Reads(Ones, s, pRead);
      && (got.Line? && got.bare <==> IsPrompt(Skip(unread)))
      && (got.Line? && !got.bare ==> Consumed(got.s))
    decreases |s.stream|
  {
    hide StringEnd, StringAt, LineEnd, Span, Lead, NextLine, AfterRead, Take, Skip, NoNul, Reads, Waiting;
    StillFits(unread, s.cur, held, s.stream, |s.buf| - 1);
    ReadsStep(Ones, s, pRead);
    if s.stream == [] {
      AtEnd(unread, s.cur, held);
    } else {
      var piece := s.stream[..1];
      var r, now := AfterRead(s, pRead, 1), Skip(held + piece);
      assert Span(held) == |held| by { HeldIsPiece(unread, s.cur, held, s.stream); }
      ArrivesShort(held, piece);
      AfterReadHolds(s, pRead, held, 1);
      ReadReturns(unread, s, pRead, held, 1);
      LineEndInside(r.buf, r.cur);
      if LineEnd(r.buf, r.cur) == None {
        ReadsOnes(unread, r, pRead + 1, now);
      } else {
        var eol := LineEnd(r.buf, r.cur).value;
        TakeFields(r, eol);
        if r.buf[eol] == 0 {
          PromptLine(unread, r.stream);
        } else {
          TakeConsumes(r, pRead + 1, now, eol);
          Arrived(unread, s.cur, held, s.stream, 1);
          assert Skip(unread) == now + s.stream[1..];
        }
      }
    }
  }

  lemma TakeFields(s: State, eol: nat)
    requires s.Valid() && s.cur <= eol < |s.buf|
    ensures Take(s, eol).Line? && Take(s, eol).bare == (s.buf[eol] == 0) && Take(s, eol).s.stream == s.stream
  {
  }

  lemma HeldIsPiece(unread: seq<byte>, skipped: nat, held: seq<byte>, stream: seq<byte>)
    requires Waiting(unread, skipped, held, stream)
    ensures Span(held) == |held| && skipped <= Lead(unread)
  {
  }

  /** What is left of the stream `all`. */
  predicate LeftOf(all: seq<byte>, stream: seq<byte>) {
    |stream| <= |all| && stream == all[|all| - |stream|..]
  }

  lemma LeftMore(all: seq<byte>, stream: seq<byte>, n: nat)
    requires LeftOf(all, stream) && n <= |stream|
    ensures LeftOf(all, stream[n..])
    ensures stream != [] ==> Spaced(all)(|stream|) == if stream[0] == 32 then 2 else 1
  {
    assert stream[n..] == all[|all| - |stream[n..]|..];
  }

  /** How much is read then: a space alone only if it is the last byte, or if there is no room for another. */
  lemma SpacedCount(all: seq<byte>, stream: seq<byte>, room: nat)
    requires LeftOf(all, stream) && stream != [] && room > 0
    ensures
      var n := Count(Spaced(all), |stream|, room);
      && n <= |stream|
      && (n == 1 || (n == 2 && stream[0] == 32))
      && (n == 1 && stream[0] == 32 ==> |stream| == 1 || room == 1)
  {
    LeftMore(all, stream, 0);
  }

  lemma {:induction false} ReadsSpaced(all: seq<byte>, unread: seq<byte>, s: State, pRead: nat, held: seq<byte>)
    requires LeftOf(all, s.stream)
    requires Holding(s, pRead, held) && Waiting(unread, s.cur, held, s.stream) && held != PROMPT
    requires Lead(unread) + Span(Skip(unread)) < |s.buf| - 1
    ensures
      var got := Reads(Spaced(all), s, pRead);
      && (got.Line? && got.bare ==> got.s.stream == [])
      && (got.Line? && !got.bare ==> Consumed(got.s) && LeftOf(all, got.s.stream))
    decreases |s.stream|
  {
    hide StringEnd, StringAt, LineEnd, Span, Lead, NextLine, AfterRead, Take, Skip, NoNul, Reads, Waiting, LeftOf,
        Spaced, Count;
    StillFits(unread, s.cur, held, s.stream, |s.buf| - 1);
    ReadsStep(Spaced(all), s, pRead);
    if s.stream != [] {
      var n := Count(Spaced(all), |s.stream|, |s.buf| - 1 - pRead);
      var r := AfterRead(s, pRead, n);
      LeftMore(all, s.stream, n);
      AfterReadHolds(s, pRead, held, n);
      ReadReturns(unread, s, pRead, held, n);
      if LineEnd(r.buf, r.cur) == None {
        ReadsSpaced(all, unread, r, pRead + n, Skip(held + s.stream[..n]));
      } else {
        SpacedFound(all, unread, s, pRead, held, n);
        TakeFields(r, LineEnd(r.buf, r.cur).value);
      }
    }
  }

  /** A line found by such a read. */
  lemma SpacedFound(all: seq<byte>, unread: seq<byte>, s: State, pRead: nat, held: seq<byte>, n: nat)
    requires LeftOf(all, s.stream) && s.stream != [] && pRead < |s.buf| - 1
    requires n == Count(Spaced(all), |s.stream|, |s.buf| - 1 - pRead) && n <= |s.stream| && pRead + n < |s.buf|
    requires Holding(s, pRead, held) && Waiting(unread, s.cur, held, s.stream)
    requires Lead(unread) + Span(Skip(unread)) < |s.buf| - 1
    ensures
      var r := AfterRead(s, pRead, n);
      LineEnd(r.buf, r.cur).Some? ==>
        var eol := LineEnd(r.buf, r.cur).value;
        if r.buf[eol] == 0 then r.stream == [] else Consumed(Take(r, eol).s)
  {
    hide StringEnd, StringAt, LineEnd, Span, Lead, NextLine, AfterRead, Take, Skip, NoNul, Waiting, LeftOf, Spaced,
        Count;
    var room := |s.buf| - 1 - pRead;
    var r, now := AfterRead(s, pRead, n), Skip(held + s.stream[..n]);
    SpacedCount(all, s.stream, room);
    HeldIsPiece(unread, s.cur, held, s.stream);
    ArrivesShort(held, s.stream[..n]);
    AfterReadHolds(s, pRead, held, n);
    ReadReturns(unread, s, pRead, held, n);
    LineEndInside(r.buf, r.cur);
    if LineEnd(r.buf, r.cur).Some? {
      var eol := LineEnd(r.buf, r.cur).value;
      TakeFields(r, eol);
      if r.buf[eol] == 0 {
        RoomForMore(unread, s, pRead, held, r.stream);
        assert now == PROMPT && now[|now| - 1] == 32;
        if held != [] {
          assert now == held + s.stream[..n] && |held| == 1 && n == 1 && s.stream[0] == now[1];
        }
      } else {
        TakeConsumes(r, pRead + n, now, eol);
      }
    }
  }

  /** In front of the space of a prompt there is room for two bytes. */
  lemma RoomForMore(unread: seq<byte>, s: State, pRead: nat, held: seq<byte>, rest: seq<byte>)
    requires Holding(s, pRead, held) && Waiting(unread, s.cur, held, s.stream)
    requires Lead(unread) + Span(Skip(unread)) < |s.buf| - 1 && Skip(unread) == PROMPT + rest
    ensures |held| == 1 ==> |s.buf| - 1 - pRead >= 2
  {
    hide StringEnd, StringAt;
    SpanAppend(PROMPT, rest);
    PromptNotEmpty();
  }

  /** A call when nothing is left in the buffer. */
  lemma FromConsumed(cuts: nat -> nat, s: State)
    requires Consumed(s) && NoNul(s.stream)
    ensures
      var e := State(s.buf[0 := 0], 0, s.stream);
      && s.Unread() == s.stream && e.Valid() && ReadOne(cuts, s) == Reads(cuts, e, 0)
      && Holding(e, 0, []) && Waiting(s.stream, 0, [], s.stream)
  {
    hide StringEnd, StringAt, Reads, Lead, Span, Skip;
    StringIs(s.buf, s.cur, []);
    StringIs(s.buf[0 := 0], 0, []);
    assert [] + s.stream == s.stream;
    Untouched(s.stream);
  }

  /** One byte at a time, a bare prompt is met if and only if some line starts like one. */
  lemma {:induction false} OnesMeet(s: State)
    requires Consumed(s) && NoNul(s.stream) && Fits(s.stream, |s.buf| - 1)
    ensures
      var r := RunFrom(Ones, s);
      && (r.met <==> !NoPrompt(s.stream))
      && (PromptInside(s.stream) ==> r.rest != [])
    decreases |s.stream|
  {
    hide StringEnd, StringAt, ReadOne, Skip, Lead, Span, Reads, IsPrompt;
    FromConsumed(Ones, s);
    Limits(s.stream, |s.buf| - 1);
    ShortNoPrompt();
    ReadsOnes(s.stream, State(s.buf[0 := 0], 0, s.stream), 0, []);
    OneLine(Ones, s);
    match ReadOne(Ones, s)
    case End(s') =>
    case Line(text, bare, s') =>
      if bare {
        PromptLine(s.stream, s'.stream);
      } else {
        SameBuffer(Ones, s);
        FromConsumed(Ones, s');
        OnesMeet(s');
      }
  }

  lemma ShortNoPrompt()
    ensures !IsPrompt([])
  {
  }

  /** A space never without the byte behind it, only a prompt at the very end of the stream is met. */
  lemma {:induction false} SpacedMeets(all: seq<byte>, s: State)
    requires Consumed(s) && NoNul(s.stream) && Fits(s.stream, |s.buf| - 1) && LeftOf(all, s.stream)
    ensures
      var r := RunFrom(Spaced(all), s);
      && (r.met <==> EndsInPrompt(s.stream))
      && (r.met ==> r.rest == [])
    decreases |s.stream|
  {
    hide StringEnd, StringAt, ReadOne, Skip, Lead, Span, Reads, IsPrompt, LeftOf, Spaced;
    FromConsumed(Spaced(all), s);
    Limits(s.stream, |s.buf| - 1);
    PromptNotEmpty();
    ReadsSpaced(all, s.stream, State(s.buf[0 := 0], 0, s.stream), 0, []);
    OneLine(Spaced(all), s);
    match ReadOne(Spaced(all), s)
    case End(s') =>
    case Line(text, bare, s') =>
      if bare {
        PromptLine(s.stream, s'.stream);
      } else {
        SameBuffer(Spaced(all), s);
        FromConsumed(Spaced(all), s');
        SpacedMeets(all, s');
      }
  }

  /** Some cuts meet a bare prompt if and only if some line starts like one. */
  lemma CanMeetIff(s: State)
    requires Consumed(s) && NoNul(s.stream) && Fits(s.stream, |s.buf| - 1)
    ensures (exists cuts :: RunFrom(cuts, s).met) <==> !NoPrompt(s.stream)
  {
    hide StringEnd, StringAt, RunFrom;
    OnesMeet(s);
    forall cuts | RunFrom(cuts, s).met
      ensures !NoPrompt(s.stream)
    {
      FromConsumed(cuts, s);
      RunLines(cuts, s);
    }
  }

  /** Some cuts meet none if and only if the stream does not end in a prompt that nothing follows. */
  lemma CanMissIff(s: State)
    requires Consumed(s) && NoNul(s.stream) && Fits(s.stream, |s.buf| - 1)
    ensures (exists cuts :: !RunFrom(cuts, s).met) <==> !EndsInPrompt(s.stream)
  {
    hide StringEnd, StringAt, RunFrom, EndsInPrompt;
    SpacedMeets(s.stream, s);
    forall cuts | !RunFrom(cuts, s).met
      ensures !EndsInPrompt(s.stream)
    {
      FromConsumed(cuts, s);
      MissedEnd(cuts, s);
    }
  }

  lemma {:induction false} MissedEnd(cuts: nat -> nat, s: State)
    requires s.Valid() && NoNul(s.stream) && Fits(s.Unread(), |s.buf| - 1) && !RunFrom(cuts, s).met
    ensures !EndsInPrompt(s.Unread())
    decreases |s.stream|, |StringAt(s.buf, s.cur)|
  {
    hide StringEnd, StringAt, ReadOne, Skip, State.Unread;
    OneLine(cuts, s);
    match ReadOne(cuts, s)
    case End(s') =>
    case Line(text, bare, s') =>
      SameBuffer(cuts, s);
      MissedEnd(cuts, s');
  }

  /**
   What the reader makes of a stream, up to a bare prompt if one is met, is the same for all cuts if
   and only if no line that starts like the prompt goes on: a prompt at the very end is always met.
   */
  lemma CutsMatterIff(s: State)
    requires Consumed(s) && NoNul(s.stream) && Fits(s.stream, |s.buf| - 1)
    ensures (forall a, b :: RunFrom(a, s) == RunFrom(b, s)) <==> !PromptInside(s.stream)
  {
    hide StringEnd, StringAt, RunFrom, PromptInside, EndsInPrompt, QuietRun;
    if PromptInside(s.stream) {
      OnesMeet(s);
      SpacedMeets(s.stream, s);
      InsideIsPrompt(s.stream);
      assert RunFrom(Ones, s) != RunFrom(Spaced(s.stream), s);
    } else {
      forall a, b
        ensures RunFrom(a, s) == RunFrom(b, s)
      {
        FromConsumed(a, s);
        Quiet(a, s);
        Quiet(b, s);
      }
    }
  }

  /** A prompt alone is met by all cuts: not every stream with a prompt is cut-dependent. */
  lemma PromptAlone()
    ensures !NoPrompt(PROMPT) && EndsInPrompt(PROMPT) && !PromptInside(PROMPT)
  {
    PromptNotEmpty();
    LeadIs(PROMPT, 0);
  }

  lemma {:induction false} InsideIsPrompt(s: seq<byte>)
    requires PromptInside(s)
    ensures !NoPrompt(s)
    decreases |s|
  {
    hide Skip, Lead, Span;
    if NextLine(s).Some? && !IsPrompt(Skip(s)) {
      InsideIsPrompt(NextLine(s).value.1);
    }
  }

  // ---------------------------------------------------------------------------------------
  // What is behind a bare prompt

  /** A line of three letters, a prompt, and another line: in three reads, of which the second is the prompt alone. */
  const DIALOGUE: seq<byte> := [LF, 65, 66, 67, LF, 62, 32, LF, 79, 75, LF]

  function ThreeReads(left: nat): nat {
    if left == 11 then 5 else if left == 6 then 2 else 4
  }

  /** The reader's buffer has eight bytes here. */
  function Before(call: nat): State
    requires call < 4
  {
    if call == 0 then State([0, 0, 0, 0, 0, 0, 0, 0, 0], 0, DIALOGUE)
    else if call == 1 then State([LF, 65, 66, 67, 0, 0, 0, 0, 0], 5, DIALOGUE[5..])
    else if call == 2 then State([62, 32, 0, 67, 0, 0, 0, 0, 0], 3, DIALOGUE[7..])
    else State([67, 0, 79, 75, LF, 0, 0, 0, 0], 2, [])
  }

  /** A text that starts with newlines, then a line that ends at `len` behind them, or a bare prompt. */
  ghost predicate LineIn(text: seq<byte>, lead: nat, len: nat) {
    && NoNul(text) && lead < |text| && (forall i | 0 <= i < lead :: IsNewline(text[i])) && !IsNewline(text[lead])
    && var t := text[lead..];
       if t == PROMPT then len == 2
       else len < |t| && IsNewline(t[len]) && forall i | 0 <= i < len :: !IsNewline(t[i])
  }

  lemma LineFound(s: seq<byte>, cur: nat, text: seq<byte>, lead: nat, len: nat)
    requires cur + |text| < |s| && s[|s| - 1] == 0 && LineIn(text, lead, len)
    requires s[cur..cur + |text|] == text && s[cur + |text|] == 0
    ensures Skipped(s, cur) == cur + lead && LineEnd(s, cur + lead) == Some(cur + lead + len)
  {
    hide StringEnd, StringAt, Span, Lead;
    StringIs(s, cur, text);
    LeadIs(text, lead);
    StringFrom(s, cur, cur + lead);
    var t := text[lead..];
    if t != PROMPT {
      SpanIs(t, len);
    }
  }

  /** A read that completes a line. */
  lemma ReadIs(cuts: nat -> nat, e: State, pRead: nat, n: nat, buf: seq<byte>, text: seq<byte>, lead: nat, len: nat)
    requires e.Valid() && pRead < |e.buf| - 1 && e.stream != []
    requires n == Count(cuts, |e.stream|, |e.buf| - 1 - pRead) && buf == Stored(e.buf, pRead, e.stream[..n])
    requires e.cur + |text| < |buf| && LineIn(text, lead, len)
    requires buf[e.cur..e.cur + |text|] == text && buf[e.cur + |text|] == 0
    ensures State(buf, e.cur + lead, e.stream[n..]).Valid() && e.cur + lead + len < |buf|
    ensures Reads(cuts, e, pRead) == Take(State(buf, e.cur + lead, e.stream[n..]), e.cur + lead + len)
  {
    hide StringEnd, StringAt, Reads, Stored, Skipped, LineEnd, LineIn, Take, Count;
    ReadsStep(cuts, e, pRead);
    LineFound(buf, e.cur, text, lead, len);
  }

  /** A call on an empty buffer starts with a read. */
  lemma EmptyCall(cuts: nat -> nat, s: State)
    requires Consumed(s)
    ensures State(s.buf[0 := 0], 0, s.stream).Valid()
    ensures ReadOne(cuts, s) == Reads(cuts, State(s.buf[0 := 0], 0, s.stream), 0)
  {
    hide Reads;
  }

  lemma FirstCall()
    ensures ReadOne(ThreeReads, Before(0)) == Line([65, 66, 67], false, Before(1))
  {
    hide ReadOne, Reads, Stored;
    var s := Before(0);
    EmptyCall(ThreeReads, s);
    var text, buf := [LF, 65, 66, 67, LF], [LF, 65, 66, 67, LF, 0, 0, 0, 0];
    assert s.stream[..5] == text && s.buf[0 := 0] == s.buf;
    assert buf == Stored(s.buf, 0, text) by { StoredIs(s.buf, 0, text, buf); }
    assert text[1..] == [65, 66, 67, LF];
    ReadIs(ThreeReads, s, 0, 5, buf, text, 1, 3);
    assert buf[4 := 0] == Before(1).buf && buf[1..4] == [65, 66, 67];
  }

  lemma SecondCall()
    ensures ReadOne(ThreeReads, Before(1)) == Line(PROMPT, true, Before(2))
  {
    hide ReadOne, Reads, Stored;
    var s := Before(1);
    EmptyCall(ThreeReads, s);
    assert s.stream[..2] == PROMPT && s.stream[2..] == DIALOGUE[7..];
    var e, buf := State(s.buf[0 := 0], 0, s.stream), [62, 32, 0, 67, 0, 0, 0, 0, 0];
    assert buf == Stored(e.buf, 0, PROMPT) by { StoredIs(e.buf, 0, PROMPT, buf); }
    assert PROMPT[0..] == PROMPT;
    ReadIs(ThreeReads, e, 0, 2, buf, PROMPT, 0, 2);
    assert buf[2 := 0] == Before(2).buf && buf[0..2] == PROMPT;
  }

  /** A call that finds a piece of a line in the buffer moves it up. */
  lemma HeldCall(cuts: nat -> nat, s: State, text: seq<byte>)
    requires s.Valid() && NoNul(text) && text != [] && (forall i | 0 <= i < |text| :: !IsNewline(text[i]))
    requires s.cur + |text| < |s.buf| && text != PROMPT
    requires s.buf[s.cur..s.cur + |text|] == text && s.buf[s.cur + |text|] == 0
    ensures StringAt(s.buf, s.cur) == text && ReadOne(cuts, s) == Reads(cuts, MovedUp(s, s.cur), |text|)
  {
    hide StringEnd, StringAt, Reads, MovedUp, Skipped, LineEnd;
    StringIs(s.buf, s.cur, text);
    PieceFound(s.buf, s.cur, text);
    assert s.buf[s.cur] == text[0];
  }

  lemma PieceFound(s: seq<byte>, cur: nat, text: seq<byte>)
    requires cur < |s| && s[|s| - 1] == 0 && StringAt(s, cur) == text && text != [] && text != PROMPT
    requires forall i | 0 <= i < |text| :: !IsNewline(text[i])
    ensures Skipped(s, cur) == cur && LineEnd(s, cur) == None
  {
    hide StringEnd, StringAt, Lead, Span;
    LeadIs(text, 0);
    SpanIs(text, |text|);
  }

  /** The string behind the prompt's terminator is moved up, and the rest of the stream is read behind it. */
  lemma ThirdCall()
    ensures ReadOne(ThreeReads, Before(2)) == Line([67], false, Before(3))
  {
    hide ReadOne, Reads, Stored, StringAt, StringEnd;
    var s := Before(2);
    assert s.buf[3..4] == [67] && s.stream == [LF, 79, 75, LF];
    HeldCall(ThreeReads, s, [67]);
    var m := State([67, 0, 0, 67, 0, 0, 0, 0, 0], 0, s.stream);
    assert MovedUp(s, 3) == m by { StoredIs(s.buf, 0, [67], m.buf); }
    ThirdRead(m);
  }

  lemma ThirdRead(m: State)
    requires m == State([67, 0, 0, 67, 0, 0, 0, 0, 0], 0, [LF, 79, 75, LF])
    ensures Reads(ThreeReads, m, 1) == Line([67], false, Before(3))
  {
    hide Reads, Stored, StringAt, StringEnd;
    var buf, text := [67, LF, 79, 75, LF, 0, 0, 0, 0], [67, LF, 79, 75, LF];
    assert m.stream[..4] == m.stream && buf == Stored(m.buf, 1, m.stream) by { StoredIs(m.buf, 1, m.stream, buf); }
    assert text[0..] == text;
    ReadIs(ThreeReads, m, 1, 4, buf, text, 0, 1);
    assert buf[1 := 0] == Before(3).buf && buf[0..1] == [67];
  }

  lemma FourthCall()
    ensures ReadOne(ThreeReads, Before(3)) == Line([79, 75], false, State([67, 0, 79, 75, 0, 0, 0, 0, 0], 5, []))
  {
    hide StringEnd, StringAt, Reads, Skipped, LineEnd;
    var s, text := Before(3), [79, 75, LF];
    assert text[0..] == text;
    LineFound(s.buf, 2, text, 0, 2);
    assert s.buf[2..4] == [79, 75] && s.buf[4 := 0] == [67, 0, 79, 75, 0, 0, 0, 0, 0];
  }

  /**
   Four calls on a fresh buffer of eight bytes return "ABC", the prompt, "C" and "OK": behind the prompt
   the reader goes on with what the first read has left in the buffer. The stream has no line "C".
   */
  lemma StaleLine()
    ensures Before(0) == State([0, 0, 0, 0, 0, 0, 0, 0, 0], 0, DIALOGUE)
    ensures ReadOne(ThreeReads, Before(0)) == Line([65, 66, 67], false, Before(1))
    ensures ReadOne(ThreeReads, Before(1)) == Line(PROMPT, true, Before(2))
    ensures ReadOne(ThreeReads, Before(2)) == Line([67], false, Before(3))
    ensures ReadOne(ThreeReads, Before(3)) == Line([79, 75], false, State([67, 0, 79, 75, 0, 0, 0, 0, 0], 5, []))
    ensures Lines(DIALOGUE) == [[65, 66, 67], PROMPT, [79, 75]]
  {
    assert Before(0) == State([0, 0, 0, 0, 0, 0, 0, 0, 0], 0, DIALOGUE);
    hide ReadOne, Before, Lines, ThreeReads, DIALOGUE, PROMPT;
    FirstCall();
    SecondCall();
    ThirdCall();
    FourthCall();
    DialogueLines();
  }

  lemma DialogueLines()
    ensures Lines(DIALOGUE) == [[65, 66, 67], PROMPT, [79, 75]]
  {
    hide Lines;
    NextIs(DIALOGUE, 1, [65, 66, 67], [62, 32, LF, 79, 75, LF]);
    NextIs([62, 32, LF, 79, 75, LF], 0, PROMPT, [79, 75, LF]);
    NextIs([79, 75, LF], 0, [79, 75], []);
    NoLines();
  }

  lemma NoLines()
    ensures Lines([]) == []
  {
  }

  lemma NextIs(s: seq<byte>, lead: nat, line: seq<byte>, rest: seq<byte>)
    requires |s| == lead + |line| + 1 + |rest| && line != []
    requires s[lead..lead + |line|] == line && s[lead + |line| + 1..] == rest && IsNewline(s[lead + |line|])
    requires (forall i | 0 <= i < lead :: IsNewline(s[i])) && (forall i | 0 <= i < |line| :: !IsNewline(line[i]))
    ensures Lines(s) == [line] + Lines(rest)
  {
    hide Lead, Span;
    assert s[lead] == line[0];
    LeadIs(s, lead);
    var t := s[lead..];
    assert forall i | 0 <= i < |line| :: t[i] == line[i];
    SpanIs(t, |line|);
    assert t[..|line|] == line && t[|line| + 1..] == rest;
  }
}

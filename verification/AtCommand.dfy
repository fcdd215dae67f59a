/**
 The command side of the AT channel (atchannel.c): the reader thread classifies each line while a
 command is pending, and the command thread waits for the final response and hands over the
 intermediate lines, which the reader has collected in reverse.
 */
module AtCommand {
  import opened Bytes

  datatype Kind = NoResult | Numeric | SingleLine | MultiLine

  /** What becomes of a line that arrives while a command is pending. */
  datatype Fate = RawData | Final | Prompt | Intermediate | Unsolicited

  const CONNECT := "CONNECT"
  const PROMPT := "> "
  const CTRL_Z := "\U{1A}"        // ends a message text
  const SUCCESSES := ["OK", "+QIND: \"FOTA\",\"END\",0", "CONNECT"]
  const ERRORS :=
    ["ERROR", "+CMS ERROR:", "+CME ERROR:", "NO CARRIER", "NO ANSWER", "NO DIALTONE", "COMMAND NOT SUPPORT"]

  ghost predicate StartsWithOneOf(line: string, prefixes: seq<string>) {
    exists i | 0 <= i < |prefixes| :: prefixes[i] <= line
  }

  ghost predicate IsSuccess(line: string) {
    StartsWithOneOf(line, SUCCESSES)
  }

  ghost predicate IsFinal(line: string) {
    IsSuccess(line) || StartsWithOneOf(line, ERRORS)
  }

  predicate IsDigit(c: char) {
    '0' <= c <= '9'
  }

  /** The lines a command of this kind asks for. */
  predicate Wanted(kind: Kind, prefix: string, line: string) {
    match kind
    case NoResult => false
    case Numeric => line != [] && IsDigit(line[0])
    case SingleLine => prefix <= line
    case MultiLine => prefix <= line
  }

  /** Which lines a command asks for, character by character. */
  lemma WantedAre(kind: Kind, prefix: string, line: string)
    ensures
      Wanted(kind, prefix, line) <==>
        match kind
        case NoResult => false
        case Numeric => |line| > 0 && line[0] in "0123456789"
        case SingleLine => |prefix| <= |line| && forall k | 0 <= k < |prefix| :: line[k] == prefix[k]
        case MultiLine => |prefix| <= |line| && forall k | 0 <= k < |prefix| :: line[k] == prefix[k]
  {
  }

  /** The final responses, one by one. */
  lemma FinalsAre(line: string)
    ensures IsSuccess(line) <==> "OK" <= line || "+QIND: \"FOTA\",\"END\",0" <= line || "CONNECT" <= line
    ensures IsFinal(line) <==>
            || IsSuccess(line) || "ERROR" <= line || "+CMS ERROR:" <= line || "+CME ERROR:" <= line
            || "NO CARRIER" <= line || "NO ANSWER" <= line || "NO DIALTONE" <= line || "COMMAND NOT SUPPORT" <= line
  {
    assert SUCCESSES == ["OK", "+QIND: \"FOTA\",\"END\",0", "CONNECT"];
    if "OK" <= line {
      assert SUCCESSES[0] <= line;
    }
    if "+QIND: \"FOTA\",\"END\",0" <= line {
      assert SUCCESSES[1] <= line;
    }
    if "CONNECT" <= line {
      assert SUCCESSES[2] <= line;
    }
    ErrorsAre(line);
    hide StartsWithOneOf, SUCCESSES, ERRORS;
  }

  lemma ErrorsAre(line: string)
    ensures StartsWithOneOf(line, ERRORS) <==>
            || "ERROR" <= line || "+CMS ERROR:" <= line || "+CME ERROR:" <= line
            || "NO CARRIER" <= line || "NO ANSWER" <= line || "NO DIALTONE" <= line || "COMMAND NOT SUPPORT" <= line
  {
    forall i | 0 <= i < |ERRORS|
      ensures ERRORS[i] <= line ==> StartsWithOneOf(line, ERRORS)
    {
    }
    assert ERRORS[0] == "ERROR" && ERRORS[1] == "+CMS ERROR:" && ERRORS[2] == "+CME ERROR:";
    assert ERRORS[3] == "NO CARRIER" && ERRORS[4] == "NO ANSWER" && ERRORS[5] == "NO DIALTONE";
    assert ERRORS[6] == "COMMAND NOT SUPPORT";
  }

  // ---------------------------------------------------------------------------------------
  // What a command gets from the lines that arrive while it is pending

  function Last(lines: seq<string>): string
    requires lines != []
  {
    lines[|lines| - 1]
  }

  function Front(lines: seq<string>): seq<string>
    requires lines != []
  {
    lines[..|lines| - 1]
  }

  /**
   The wanted lines in the order of arrival: no final response, and not the line that prompts for
   the message text.
   */
  ghost function Candidates(kind: Kind, prefix: string, prompted: bool, lines: seq<string>): seq<string> {
    if lines == [] then []
    else
      Candidates(kind, prefix, prompted, Front(lines)) +
      if || IsFinal(Last(lines)) || !Wanted(kind, prefix, Last(lines))
         || (prompted && Last(lines) == PROMPT && PROMPT !in Front(lines))
      then [] else [Last(lines)]
  }

  ghost function Expected(kind: Kind, prefix: string, prompted: bool, lines: seq<string>): seq<string> {
    var wanted := Candidates(kind, prefix, prompted, lines);
    if kind.MultiLine? || wanted == [] then wanted else wanted[..1]
  }

  /** The last final response, except for the CONNECT that starts the transfer of raw data. */
  ghost function FinalOf(raw: bool, lines: seq<string>): Option<string> {
    if lines == [] then None
    else if IsFinal(Last(lines)) && !(raw && Last(lines) == CONNECT && CONNECT !in Front(lines)) then Some(Last(lines))
    else FinalOf(raw, Front(lines))
  }

  /** Where a line first occurs, or the number of lines if it does not. */
  ghost function First(lines: seq<string>, line: string): (k: nat)
    ensures k <= |lines|
  {
    if lines == [] then 0
    else if line in Front(lines) then First(Front(lines), line)
    else if Last(lines) == line then |lines| - 1
    else |lines|
  }

  lemma {:induction false} FirstIs(lines: seq<string>, line: string)
    ensures First(lines, line) < |lines| <==> line in lines
    ensures First(lines, line) < |lines| ==> lines[First(lines, line)] == line
    ensures line !in lines[..First(lines, line)]
  {
    if lines != [] && line in Front(lines) {
      FirstIs(Front(lines), line);
      assert Front(lines)[..First(lines, line)] == lines[..First(lines, line)];
    }
  }

  /**
   What the lines make the reader write: the message text, ended by Ctrl-Z, if one is pending and a prompt
   arrives, and the raw data if they are pending and a CONNECT arrives; what is asked for first goes first.
   */
  ghost function Transfers(pdu: Option<string>, raw: Option<string>, lines: seq<string>): seq<string> {
    var text := if pdu.Some? && PROMPT in lines then [pdu.value + CTRL_Z] else [];
    var data := if raw.Some? && CONNECT in lines then [raw.value] else [];
    if First(lines, PROMPT) < First(lines, CONNECT) then text + data else data + text
  }

  /** The lines the command has no use for: not final, not the prompt for the text, and not taken. */
  ghost function Leftover(kind: Kind, prefix: string, prompted: bool, lines: seq<string>): seq<string> {
    if lines == [] then []
    else
      Leftover(kind, prefix, prompted, Front(lines)) +
      if || IsFinal(Last(lines)) || (prompted && Last(lines) == PROMPT && PROMPT !in Front(lines))
         || (Wanted(kind, prefix, Last(lines))
             && (kind.MultiLine? || Candidates(kind, prefix, prompted, Front(lines)) == []))
      then [] else [Last(lines)]
  }

  /** The first CONNECT of the lines, with no final response behind it. */
  ghost predicate ConnectIsLast(lines: seq<string>, k: nat)
    requires k < |lines|
  {
    lines[k] == CONNECT && CONNECT !in lines[..k] && forall j | k < j < |lines| :: !IsFinal(lines[j])
  }

  /**
   Raw data that is pending changes the final response of the command if and only if the first CONNECT
   arrives with no final response behind it: that CONNECT is then used up for the data.
   */
  lemma {:induction false} ConnectLostIff(lines: seq<string>)
    ensures FinalOf(true, lines) != FinalOf(false, lines) <==> exists k: nat :: k < |lines| && ConnectIsLast(lines, k)
    ensures FinalOf(true, lines) != FinalOf(false, lines) ==> FinalOf(false, lines) == Some(CONNECT)
  {
    hide IsFinal, CONNECT;
    if lines != [] {
      var n := |lines| - 1;
      ConnectIsFinal();
      if !IsFinal(lines[n]) {
        ConnectLostIff(Front(lines));
        forall k: nat | k < n
          ensures ConnectIsLast(lines, k) <==> ConnectIsLast(Front(lines), k)
        {
          LastAppended(lines, k);
        }
      } else {
        FinalIsOne(true, Front(lines));
        if lines[n] == CONNECT && CONNECT !in Front(lines) {
          assert ConnectIsLast(lines, n);
        } else {
          forall k: nat | k < |lines|
            ensures !ConnectIsLast(lines, k)
          {
          }
        }
      }
    }
  }

  lemma ConnectIsFinal()
    ensures IsFinal(CONNECT)
  {
    NotFinal();
  }

  lemma LastAppended(lines: seq<string>, k: nat)
    requires k + 1 < |lines| && !IsFinal(Last(lines))
    ensures ConnectIsLast(lines, k) <==> ConnectIsLast(Front(lines), k)
  {
    hide IsFinal, CONNECT;
    var f := Front(lines);
    assert f[..k] == lines[..k];
    assert forall j | k < j < |f| :: f[j] == lines[j];
  }

  lemma {:induction false} FinalIsOne(raw: bool, lines: seq<string>)
    ensures FinalOf(raw, lines).Some? ==> FinalOf(raw, lines).value in lines
  {
    hide IsFinal, CONNECT;
    if lines != [] {
      FinalIsOne(raw, Front(lines));
      assert Last(lines) in lines && forall line | line in Front(lines) :: line in lines;
    }
  }

  // ---------------------------------------------------------------------------------------
  // The same, step by step

  /** Everything a line can change. */
  datatype Answer = Answer(
    pdu: Option<string>,          // s_smsPDU
    raw: Option<string>,          // s_raw_data
    taken: seq<string>,           // the intermediate lines in the order of arrival
    final: Option<string>,        // finalResponse
    success: bool,
    unsolicited: seq<string>,     // what the handler was called with
    written: seq<string>)         // what was written to the channel

  ghost function Classify(kind: Kind, prefix: string, a: Answer, line: string): Fate {
    if a.raw.Some? && line == CONNECT then RawData
    else if IsFinal(line) then Final
    else if a.pdu.Some? && line == PROMPT then Prompt
    else if Wanted(kind, prefix, line) && (kind.MultiLine? || a.taken == []) then Intermediate
    else Unsolicited
  }

  ghost function Apply(a: Answer, fate: Fate, line: string): Answer {
    match fate
    case RawData => if a.raw.Some? then a.(raw := None, written := a.written + [a.raw.value]) else a
    case Final => a.(final := Some(line), success := IsSuccess(line))
    case Prompt => if a.pdu.Some? then a.(pdu := None, written := a.written + [a.pdu.value + CTRL_Z]) else a
    case Intermediate => a.(taken := a.taken + [line])
    case Unsolicited => a.(unsolicited := a.unsolicited + [line])
  }

  ghost function Step(kind: Kind, prefix: string, a: Answer, line: string): Answer {
    Apply(a, Classify(kind, prefix, a, line), line)
  }

  ghost function After(kind: Kind, prefix: string, a: Answer, lines: seq<string>): Answer {
    if lines == [] then a else Step(kind, prefix, After(kind, prefix, a, Front(lines)), Last(lines))
  }

  ghost function Fates(kind: Kind, prefix: string, a: Answer, lines: seq<string>): (fates: seq<Fate>)
    ensures |fates| == |lines|
  {
    if lines == [] then []
    else
      Fates(kind, prefix, a, Front(lines))
      + [Classify(kind, prefix, After(kind, prefix, a, Front(lines)), Last(lines))]
  }

  /** The lines of one fate, in order. */
  ghost function Select(lines: seq<string>, fates: seq<Fate>, fate: Fate): seq<string>
    requires |fates| == |lines|
  {
    if lines == [] then []
    else Select(Front(lines), fates[..|fates| - 1], fate) + if fates[|fates| - 1] == fate then [Last(lines)] else []
  }

  ghost predicate Fresh(a: Answer) {
    a.taken == [] && a.final == None
  }

  lemma NotFinal()
    ensures IsFinal(CONNECT) && !IsFinal(PROMPT)
  {
    assert SUCCESSES[2] <= CONNECT;
    assert forall i | 0 <= i < |SUCCESSES| :: SUCCESSES[i][0] != PROMPT[0];
    assert forall i | 0 <= i < |ERRORS| :: ERRORS[i][0] != PROMPT[0];
  }

  lemma LastOf(kind: Kind, prefix: string, a: Answer, lines: seq<string>)
    requires lines != []
    ensures lines == Front(lines) + [Last(lines)]
    ensures After(kind, prefix, a, lines) == Step(kind, prefix, After(kind, prefix, a, Front(lines)), Last(lines))
  {
  }

  lemma StepData(kind: Kind, prefix: string, a: Answer, line: string)
    ensures Step(kind, prefix, a, line).raw == if line == CONNECT then None else a.raw
    ensures Step(kind, prefix, a, line).pdu == if line == PROMPT then None else a.pdu
  {
    NotFinal();
    hide IsFinal, IsSuccess, Wanted, CONNECT, PROMPT;
  }

  lemma StepTaken(kind: Kind, prefix: string, a: Answer, line: string)
    ensures
      Step(kind, prefix, a, line).taken == a.taken +
        if || IsFinal(line) || !Wanted(kind, prefix, line) || (a.pdu.Some? && line == PROMPT)
           || (!kind.MultiLine? && a.taken != [])
        then [] else [line]
  {
    NotFinal();
    hide IsFinal, IsSuccess, Wanted, CONNECT, PROMPT;
  }

  lemma StepFinal(kind: Kind, prefix: string, a: Answer, line: string)
    ensures
      var after := Step(kind, prefix, a, line);
      if IsFinal(line) && !(a.raw.Some? && line == CONNECT)
      then after.final == Some(line) && after.success == IsSuccess(line)
      else after.final == a.final && after.success == a.success
  {
    hide IsFinal, IsSuccess, Wanted, CONNECT, PROMPT;
  }

  lemma StepWritten(kind: Kind, prefix: string, a: Answer, line: string)
    ensures
      Step(kind, prefix, a, line).written == a.written +
        if line == CONNECT && a.raw.Some? then [a.raw.value]
        else if line == PROMPT && a.pdu.Some? then [a.pdu.value + CTRL_Z] else []
  {
    NotFinal();
    assert CONNECT[0] != PROMPT[0];
    hide IsFinal, IsSuccess, Wanted, CONNECT, PROMPT, CTRL_Z;
  }

  lemma StepUnsolicited(kind: Kind, prefix: string, a: Answer, line: string)
    ensures
      Step(kind, prefix, a, line).unsolicited == a.unsolicited +
        if || IsFinal(line) || (a.pdu.Some? && line == PROMPT)
           || (Wanted(kind, prefix, line) && (kind.MultiLine? || a.taken == []))
        then [] else [line]
  {
    NotFinal();
    hide IsFinal, IsSuccess, Wanted, CONNECT, PROMPT;
  }

  /** The pending prompt and the pending raw data are used up by the first line that asks for them. */
  lemma {:induction false} PendingData(kind: Kind, prefix: string, a: Answer, lines: seq<string>)
    ensures After(kind, prefix, a, lines).raw == if CONNECT in lines then None else a.raw
    ensures After(kind, prefix, a, lines).pdu == if PROMPT in lines then None else a.pdu
  {
    if lines != [] {
      hide Step, CONNECT, PROMPT, After;
      PendingData(kind, prefix, a, Front(lines));
      LastOf(kind, prefix, a, lines);
      StepData(kind, prefix, After(kind, prefix, a, Front(lines)), Last(lines));
    }
  }

  lemma FirstLater(lines: seq<string>, line: string)
    requires lines != []
    ensures First(lines, line) == if line in Front(lines) then First(Front(lines), line)
                                  else if Last(lines) == line then |lines| - 1 else |lines|
    ensures First(Front(lines), line) < |lines| - 1 <==> line in Front(lines)
  {
    FirstIs(Front(lines), line);
  }

  lemma TransfersLater(pdu: Option<string>, raw: Option<string>, lines: seq<string>)
    requires lines != []
    ensures
      Transfers(pdu, raw, lines) == Transfers(pdu, raw, Front(lines)) +
        if Last(lines) == CONNECT && CONNECT !in Front(lines) && raw.Some? then [raw.value]
        else if Last(lines) == PROMPT && PROMPT !in Front(lines) && pdu.Some? then [pdu.value + CTRL_Z] else []
  {
    assert CONNECT[0] != PROMPT[0];
    hide CONNECT, PROMPT, CTRL_Z, First;
    FirstLater(lines, CONNECT);
    FirstLater(lines, PROMPT);
    assert lines == Front(lines) + [Last(lines)];
  }

  /** Message text and raw data are written once each, by the first line that asks, and nothing else is. */
  lemma {:induction false} WrittenOnce(kind: Kind, prefix: string, a: Answer, lines: seq<string>)
    ensures After(kind, prefix, a, lines).written == a.written + Transfers(a.pdu, a.raw, lines)
  {
    if lines != [] {
      hide Step, CONNECT, PROMPT, CTRL_Z, After, Transfers;
      WrittenOnce(kind, prefix, a, Front(lines));
      PendingData(kind, prefix, a, Front(lines));
      LastOf(kind, prefix, a, lines);
      StepWritten(kind, prefix, After(kind, prefix, a, Front(lines)), Last(lines));
      TransfersLater(a.pdu, a.raw, lines);
    }
  }

  /**
   The intermediate lines of a command are the wanted lines in the order of arrival: all of them for
   a multi-line command, only the first for a single-line or numeric one.
   */
  lemma {:induction false} TakenAreExpected(kind: Kind, prefix: string, a: Answer, lines: seq<string>)
    requires Fresh(a)
    ensures After(kind, prefix, a, lines).taken == Expected(kind, prefix, a.pdu.Some?, lines)
  {
    if lines != [] {
      hide IsFinal, Wanted, Step, CONNECT, PROMPT, After;
      TakenAreExpected(kind, prefix, a, Front(lines));
      PendingData(kind, prefix, a, Front(lines));
      LastOf(kind, prefix, a, lines);
      StepTaken(kind, prefix, After(kind, prefix, a, Front(lines)), Last(lines));
      var before := Candidates(kind, prefix, a.pdu.Some?, Front(lines));
      assert before != [] ==> (before + [Last(lines)])[..1] == before[..1];
    }
  }

  /** The stored final response is the last one, and `success` says whether it is a success. */
  lemma {:induction false} FinalIsLast(kind: Kind, prefix: string, a: Answer, lines: seq<string>)
    requires Fresh(a)
    ensures
      var after := After(kind, prefix, a, lines);
      && after.final == FinalOf(a.raw.Some?, lines)
      && (after.final.Some? ==> after.success == IsSuccess(after.final.value))
  {
    if lines != [] {
      hide IsFinal, IsSuccess, Wanted, Step, CONNECT, PROMPT, After;
      FinalIsLast(kind, prefix, a, Front(lines));
      PendingData(kind, prefix, a, Front(lines));
      LastOf(kind, prefix, a, lines);
      StepFinal(kind, prefix, After(kind, prefix, a, Front(lines)), Last(lines));
    }
  }

  /** The handler gets the lines the command has no use for, in the order of arrival. */
  lemma {:induction false} UnsolicitedAreLeftover(kind: Kind, prefix: string, a: Answer, lines: seq<string>)
    requires Fresh(a)
    ensures After(kind, prefix, a, lines).unsolicited
            == a.unsolicited + Leftover(kind, prefix, a.pdu.Some?, lines)
  {
    if lines != [] {
      hide IsFinal, Wanted, Step, CONNECT, PROMPT, After, Candidates;
      UnsolicitedAreLeftover(kind, prefix, a, Front(lines));
      PendingData(kind, prefix, a, Front(lines));
      TakenAreExpected(kind, prefix, a, Front(lines));
      LastOf(kind, prefix, a, lines);
      StepUnsolicited(kind, prefix, After(kind, prefix, a, Front(lines)), Last(lines));
    }
  }

  lemma SelectLast(lines: seq<string>, fates: seq<Fate>, line: string, last: Fate, fate: Fate)
    requires |fates| == |lines|
    ensures Select(lines + [line], fates + [last], fate)
            == Select(lines, fates, fate) + if last == fate then [line] else []
  {
    assert Front(lines + [line]) == lines && (fates + [last])[..|fates|] == fates;
  }

  /** What has become of the lines, and where each outcome shows. */
  ghost predicate Sorted(a: Answer, lines: seq<string>, fates: seq<Fate>, after: Answer)
    requires |fates| == |lines|
  {
    && after.taken == Select(lines, fates, Intermediate)
    && after.unsolicited == a.unsolicited + Select(lines, fates, Unsolicited)
    && after.final == LastFinal(Select(lines, fates, Final))
    && |Select(lines, fates, RawData)| == (if a.raw.Some? && after.raw == None then 1 else 0)
    && |Select(lines, fates, Prompt)| == (if a.pdu.Some? && after.pdu == None then 1 else 0)
    && (after.raw.Some? ==> a.raw.Some?) && (after.pdu.Some? ==> a.pdu.Some?)
  }

  ghost function LastFinal(finals: seq<string>): Option<string> {
    if finals == [] then None else Some(Last(finals))
  }

  lemma SortedStep(kind: Kind, prefix: string, a: Answer, lines: seq<string>, fates: seq<Fate>, after: Answer,
                   line: string)
    requires |fates| == |lines| && Sorted(a, lines, fates, after)
    ensures Sorted(a, lines + [line], fates + [Classify(kind, prefix, after, line)], Step(kind, prefix, after, line))
  {
    var last := Classify(kind, prefix, after, line);
    SelectLast(lines, fates, line, last, Intermediate);
    SelectLast(lines, fates, line, last, Unsolicited);
    SelectLast(lines, fates, line, last, Final);
    SelectLast(lines, fates, line, last, RawData);
    SelectLast(lines, fates, line, last, Prompt);
    hide Select, IsFinal, IsSuccess, Wanted, CONNECT, PROMPT;
  }

  /** The final responses in the order of arrival, as `FinalOf` counts them. */
  ghost function Finals(raw: bool, lines: seq<string>): seq<string> {
    if lines == [] then []
    else
      Finals(raw, Front(lines)) +
      if IsFinal(Last(lines)) && !(raw && Last(lines) == CONNECT && CONNECT !in Front(lines)) then [Last(lines)] else []
  }

  /** The lines that started the transfer of raw data and of the message text. */
  ghost function UsedUp(a: Answer, after: Answer): seq<string> {
    (if a.raw.Some? && after.raw.None? then [CONNECT] else [])
    + (if a.pdu.Some? && after.pdu.None? then [PROMPT] else [])
  }

  /** The lines are those in the list, those the handler got, the final responses, and those used up. */
  ghost predicate Accounted(a: Answer, lines: seq<string>, finals: seq<string>, after: Answer) {
    && a.unsolicited <= after.unsolicited && (a.raw.None? ==> after.raw.None?) && (a.pdu.None? ==> after.pdu.None?)
    && Balance(lines, after.taken, after.unsolicited[|a.unsolicited|..], finals, UsedUp(a, after))
  }

  predicate Balance(all: seq<string>, a: seq<string>, b: seq<string>, c: seq<string>, d: seq<string>) {
    multiset(all) == multiset(a) + multiset(b) + multiset(c) + multiset(d)
  }

  lemma BalanceMore(all: seq<string>, a: seq<string>, b: seq<string>, c: seq<string>, d: seq<string>, x: string)
    requires Balance(all, a, b, c, d)
    ensures Balance(all + [x], a + [x], b, c, d) && Balance(all + [x], a, b + [x], c, d)
    ensures Balance(all + [x], a, b, c + [x], d) && Balance(all + [x], a, b, c, d + [x])
    ensures Balance(all + [x], a, b, c, [x] + d)
  {
  }

  /** What a line of each fate changes. */
  lemma FateShows(kind: Kind, prefix: string, a: Answer, after: Answer, line: string)
    requires a.unsolicited <= after.unsolicited
    requires (a.raw.None? ==> after.raw.None?) && (a.pdu.None? ==> after.pdu.None?)
    ensures
      var next, n := Step(kind, prefix, after, line), |a.unsolicited|;
      && a.unsolicited <= next.unsolicited && (a.raw.None? ==> next.raw.None?) && (a.pdu.None? ==> next.pdu.None?)
      && match Classify(kind, prefix, after, line)
         case RawData => line == CONNECT && next.taken == after.taken && next.unsolicited == after.unsolicited
                         && UsedUp(a, next) == [line] + UsedUp(a, after)
         case Prompt => line == PROMPT && next.taken == after.taken && next.unsolicited == after.unsolicited
                        && UsedUp(a, next) == UsedUp(a, after) + [line]
         case Intermediate => next.taken == after.taken + [line] && next.unsolicited == after.unsolicited
                              && UsedUp(a, next) == UsedUp(a, after)
         case Unsolicited => next.taken == after.taken && next.unsolicited[n..] == after.unsolicited[n..] + [line]
                             && UsedUp(a, next) == UsedUp(a, after)
         case Final => next.taken == after.taken && next.unsolicited == after.unsolicited
                       && UsedUp(a, next) == UsedUp(a, after)
  {
    hide IsFinal, IsSuccess, Wanted, CONNECT, PROMPT;
  }

  lemma AccountedStep(kind: Kind, prefix: string, a: Answer, lines: seq<string>, finals: seq<string>, after: Answer,
                      line: string)
    requires Accounted(a, lines, finals, after)
    ensures
      var final := IsFinal(line) && !(after.raw.Some? && line == CONNECT);
      Accounted(a, lines + [line], finals + (if final then [line] else []), Step(kind, prefix, after, line))
  {
    hide IsSuccess, Wanted, PROMPT, Step, Balance, UsedUp, StartsWithOneOf, CONNECT;
    FateShows(kind, prefix, a, after, line);
    BalanceMore(lines, after.taken, after.unsolicited[|a.unsolicited|..], finals, UsedUp(a, after), line);
    NotFinal();
    assert finals + [] == finals;
  }

  /**
   Nothing is lost and nothing is used twice: the lines, with their number of occurrences, are the
   intermediate lines, the lines given to the handler, the final responses, and the lines that
   started a transfer of raw data or of the message text.
   */
  lemma {:induction false} NothingLost(kind: Kind, prefix: string, a: Answer, lines: seq<string>)
    requires Fresh(a)
    ensures Accounted(a, lines, Finals(a.raw.Some?, lines), After(kind, prefix, a, lines))
  {
    if lines != [] {
      hide Step, After, Accounted, IsFinal, CONNECT;
      NothingLost(kind, prefix, a, Front(lines));
      PendingData(kind, prefix, a, Front(lines));
      LastOf(kind, prefix, a, lines);
      AccountedStep(kind, prefix, a, Front(lines), Finals(a.raw.Some?, Front(lines)),
                    After(kind, prefix, a, Front(lines)), Last(lines));
    }
  }

  /** Every line has exactly one fate, and what becomes of the lines of each shows in the answer. */
  lemma {:induction false} OneFate(kind: Kind, prefix: string, a: Answer, lines: seq<string>)
    requires Fresh(a)
    ensures Sorted(a, lines, Fates(kind, prefix, a, lines), After(kind, prefix, a, lines))
  {
    if lines != [] {
      hide Classify, Step, Sorted, After;
      OneFate(kind, prefix, a, Front(lines));
      LastOf(kind, prefix, a, lines);
      var before, after := Fates(kind, prefix, a, Front(lines)), After(kind, prefix, a, Front(lines));
      SortedStep(kind, prefix, a, Front(lines), before, after, Last(lines));
    }
  }

  lemma {:induction false} AfterAppend(kind: Kind, prefix: string, a: Answer, first: seq<string>, more: seq<string>)
    ensures After(kind, prefix, a, first + more) == After(kind, prefix, After(kind, prefix, a, first), more)
  {
    if more == [] {
      assert first + more == first;
    } else {
      hide Step;
      AfterAppend(kind, prefix, a, first, Front(more));
      assert Front(first + more) == first + Front(more);
    }
  }

  // ---------------------------------------------------------------------------------------
  // The list of intermediate lines

  function Reversed<T>(s: seq<T>): seq<T> {
    if s == [] then [] else [s[|s| - 1]] + Reversed(s[..|s| - 1])
  }

  lemma ReversedStep<T>(s: seq<T>)
    requires s != []
    ensures Reversed(s) == [s[|s| - 1]] + Reversed(s[..|s| - 1])
  {
  }

  lemma {:induction false} ReversedCons<T>(x: T, s: seq<T>)
    ensures Reversed([x] + s) == Reversed(s) + [x]
  {
    ReversedStep([x] + s);
    if s == [] {
      assert [x] + s == [x] && ([x] + s)[..0] == [] && Reversed<T>([]) == [];
    } else {
      hide Reversed;
      ReversedStep(s);
      ReversedCons(x, s[..|s| - 1]);
      assert ([x] + s)[..|s|] == [x] + s[..|s| - 1];
      assert [s[|s| - 1]] + (Reversed(s[..|s| - 1]) + [x]) == ([s[|s| - 1]] + Reversed(s[..|s| - 1])) + [x];
    }
  }

  lemma {:induction false} ReversedTwice<T>(s: seq<T>)
    ensures Reversed(Reversed(s)) == s
  {
    if s != [] {
      ReversedTwice(s[..|s| - 1]);
      ReversedCons(s[|s| - 1], Reversed(s[..|s| - 1]));
    }
  }

  class Line {
    const text: string
    var next: Line?

    constructor (text: string, next: Line?)
      ensures this.text == text && this.next == next
    {
      this.text, this.next := text, next;
    }
  }

  /** `nodes` are the nodes reached from `head`, all different, and the last one ends the list. */
  ghost predicate Chain(head: Line?, nodes: seq<Line>)
    reads nodes
  {
    if nodes == [] then head == null
    else head == nodes[0] && nodes[0] !in nodes[1..] && Chain(nodes[0].next, nodes[1..])
  }

  ghost function Texts(nodes: seq<Line>): seq<string> {
    if nodes == [] then [] else [nodes[0].text] + Texts(nodes[1..])
  }

  lemma {:induction false} TextsReversed(nodes: seq<Line>)
    ensures Texts(Reversed(nodes)) == Reversed(Texts(nodes))
  {
    if nodes != [] {
      assert nodes == [nodes[0]] + nodes[1..];
      ReversedCons(nodes[0], nodes[1..]);
      ReversedCons(nodes[0].text, Texts(nodes[1..]));
      TextsReversed(nodes[1..]);
      TextsSnoc(Reversed(nodes[1..]), nodes[0]);
    }
  }

  lemma {:induction false} TextsSnoc(nodes: seq<Line>, node: Line)
    ensures Texts(nodes + [node]) == Texts(nodes) + [node.text]
  {
    if nodes != [] {
      TextsSnoc(nodes[1..], node);
      assert (nodes + [node])[1..] == nodes[1..] + [node];
    }
  }

  lemma NoneTaken(head: Line?, nodes: seq<Line>)
    requires Chain(head, nodes)
    ensures head == null <==> Reversed(Texts(nodes)) == []
  {
  }

  class Response {
    var success: bool
    var finalResponse: Option<string>
    var intermediates: Line?          // p_intermediates, the latest line first
    ghost var spine: seq<Line>

    ghost predicate Valid()
      reads this, spine
    {
      Chain(intermediates, spine)
    }

    constructor ()
      ensures Valid() && spine == [] && finalResponse == None && !success
    {
      success, finalResponse, intermediates, spine := false, None, null, [];
    }

    /** Turns the list around by updating the nodes. */
    method ReverseIntermediates()
      requires Valid()
      modifies this`intermediates, this`spine, set node | node in spine
      ensures Valid() && spine == Reversed(old(spine))
    {
      hide Turning, Chain, Reversed;
      ghost var all: seq<Line>, done: seq<Line>, todo: seq<Line> := spine, [], spine;
      var current := intermediates;
      intermediates := null;
      TurnStart(all);
      while current != null
        invariant spine == old(spine) == all && Turning(all, done, todo)
        invariant Chain(current, todo) && Chain(intermediates, done)
        decreases |todo|
      {
        var node: Line := current;
        ChainHead(node, todo);
        Turn(all, done, todo);
        current := node.next;
        PutInFront(node, intermediates, done, todo[1..]);
        intermediates := node;
        done, todo := [node] + done, todo[1..];
      }
      ChainEnd(todo);
      TurnEnd(all, done);
      spine := done;
    }
  }

  lemma ChainHead(head: Line, nodes: seq<Line>)
    requires Chain(head, nodes)
    ensures nodes != [] && head == nodes[0] && nodes[0] !in nodes[1..] && Chain(head.next, nodes[1..])
  {
  }

  lemma ChainEnd(nodes: seq<Line>)
    requires Chain(null, nodes)
    ensures nodes == []
  {
  }

  /** Links a node in front of the list `done`, away from the list `rest`. */
  method PutInFront(node: Line, head: Line?, ghost done: seq<Line>, ghost rest: seq<Line>)
    requires Chain(head, done) && Chain(node.next, rest) && node !in done && node !in rest
    modifies node
    ensures Chain(node, [node] + done) && Chain(old(node.next), rest)
  {
    ghost var next := node.next;
    node.next := head;
    assert Chain(head, done) && Chain(next, rest);
    assert ([node] + done)[1..] == done;
  }

  /** While a list is turned around: `done` is the part in front, already reversed. */
  ghost predicate Turning(all: seq<Line>, done: seq<Line>, todo: seq<Line>) {
    Reversed(done) + todo == all && (forall node | node in todo :: node in all && node !in done)
  }

  lemma TurnStart(all: seq<Line>)
    ensures Turning(all, [], all) && Chain(null, [])
  {
    assert Reversed<Line>([]) == [];
  }

  lemma Turn(all: seq<Line>, done: seq<Line>, todo: seq<Line>)
    requires Turning(all, done, todo) && todo != [] && todo[0] !in todo[1..]
    ensures todo[0] in all && todo[0] !in done && Turning(all, [todo[0]] + done, todo[1..])
  {
    assert todo[0] in todo && todo == [todo[0]] + todo[1..];
    ReversedCons(todo[0], done);
    assert Reversed([todo[0]] + done) + todo[1..] == all;
  }

  lemma TurnEnd(all: seq<Line>, done: seq<Line>)
    requires Turning(all, done, [])
    ensures done == Reversed(all)
  {
    assert Reversed(done) == all;
    ReversedTwice(done);
  }

  // ---------------------------------------------------------------------------------------
  // Classifying a line

  method StartsWith(line: string, prefix: string) returns (yes: bool)
    ensures yes == (prefix <= line)
  {
    var i := 0;
    while i < |line| && i < |prefix|
      invariant i <= |line| && i <= |prefix| && line[..i] == prefix[..i]
    {
      if line[i] != prefix[i] {
        return false;
      }
      i := i + 1;
    }
    assert prefix[..|prefix|] == prefix;
    return i == |prefix|;
  }

  method IsOneOf(line: string, prefixes: seq<string>) returns (yes: bool)
    ensures yes == StartsWithOneOf(line, prefixes)
  {
    for i := 0 to |prefixes|
      invariant forall j | 0 <= j < i :: !(prefixes[j] <= line)
    {
      yes := StartsWith(line, prefixes[i]);
      if yes {
        return true;
      }
    }
    return false;
  }

  method IsFinalResponse(line: string) returns (success: bool, error: bool)
    ensures success == IsSuccess(line) && IsFinal(line) == (success || error)
  {
    success := IsOneOf(line, SUCCESSES);
    error := IsOneOf(line, ERRORS);
  }

  datatype Error = Ok | Generic | CommandPending | TimedOut | ChannelClosed | InvalidResponse

  /**
   One wait of the command thread, during which the reader owns the mutex: the lines it processes,
   whether the channel closes, and whether the wait ends by its time limit.
   */
  datatype Wait = Wait(lines: seq<string>, closes: bool, timedOut: bool)

  ghost function Arrived(waits: seq<Wait>): seq<string> {
    if waits == [] then [] else Arrived(waits[..|waits| - 1]) + waits[|waits| - 1].lines
  }

  class Channel {
    var kind: Kind                    // s_type
    var prefix: string                // s_responsePrefix
    var pdu: Option<string>           // s_smsPDU
    var raw: Option<string>           // s_raw_data
    var response: Response?           // sp_response
    var closed: bool                  // s_readerClosed
    var unsolicited: seq<string>
    var written: seq<string>

    ghost predicate Valid()
      reads this, response, if response == null then [] else response.spine
    {
      response != null ==> response.Valid()
    }

    /** What the pending command has got so far. */
    ghost function State(): Answer
      requires response != null
      reads this, response, if response == null then [] else response.spine
    {
      Answer(pdu, raw, Reversed(Texts(response.spine)), response.finalResponse, response.success, unsolicited, written)
    }

    /** Puts a line at the head of the list. */
    method AddIntermediate(line: string)
      requires Valid() && response != null
      modifies response`intermediates, response`spine
      ensures Valid() && forall node | node in response.spine :: node in old(response.spine) || fresh(node)
      ensures State() == old(State()).(taken := old(State()).taken + [line])
    {
      var node := new Line(line, response.intermediates);
      ghost var spine := response.spine;
      response.intermediates := node;
      response.spine := [node] + spine;
      assert ([node] + spine)[1..] == spine;
      ReversedCons(line, Texts(spine));
    }

    /** A line that is neither a final response nor a prompt. */
    method ProcessByKind(line: string)
      requires Valid() && response != null
      modifies this`unsolicited, response`intermediates, response`spine
      ensures Valid() && forall node | node in response.spine :: node in old(response.spine) || fresh(node)
      ensures
        var wanted := Wanted(kind, prefix, line) && (kind.MultiLine? || old(State()).taken == []);
        State() == Apply(old(State()), if wanted then Intermediate else Unsolicited, line)
    {
      NoneTaken(response.intermediates, response.spine);
      hide Texts, Reversed, Chain;
      var add := false;
      match kind {
        case NoResult =>
        case Numeric =>
          add := response.intermediates == null && line != [] && IsDigit(line[0]);
        case SingleLine =>
          add := StartsWith(line, prefix);
          add := add && response.intermediates == null;
        case MultiLine =>
          add := StartsWith(line, prefix);
      }
      if add {
        AddIntermediate(line);
      } else {
        unsolicited := unsolicited + [line];
      }
    }

    /** The reader thread's handling of one line. */
    method ProcessLine(line: string)
      requires Valid()
      modifies this`pdu, this`raw, this`unsolicited, this`written, response
      ensures Valid()
      ensures response == null ==>
          unsolicited == old(unsolicited) + [line] && pdu == old(pdu) && raw == old(raw) && written == old(written)
      ensures response != null ==> State() == Step(kind, prefix, old(State()), line)
      ensures response != null ==>
                && raw == (if line == CONNECT then None else old(raw))
                && pdu == (if line == PROMPT then None else old(pdu))
                && written == old(written) + (if line == CONNECT && old(raw).Some? then [old(raw).value]
                                              else if line == PROMPT && old(pdu).Some? then [old(pdu).value + CTRL_Z]
                                              else [])
      ensures response != null && IsFinal(line) && !(line == CONNECT && old(raw).Some?) ==>
                response.finalResponse == Some(line) && response.success == IsSuccess(line)
      ensures response != null ==> forall node | node in response.spine :: node in old(response.spine) || fresh(node)
    {
      hide IsFinal, IsSuccess, StartsWithOneOf, CONNECT, PROMPT, CTRL_Z, SUCCESSES, ERRORS, Texts, Reversed, Chain,
           Wanted;
      if response != null {
        StepData(kind, prefix, State(), line);
        StepFinal(kind, prefix, State(), line);
        StepWritten(kind, prefix, State(), line);
      }
      if response == null {
        unsolicited := unsolicited + [line];
        return;
      }
      var success, error := IsFinalResponse(line);
      if raw.Some? && line == CONNECT {
        written := written + [raw.value];
        raw := None;
      } else if success {
        response.success := true;
        response.finalResponse := Some(line);
      } else if error {
        response.success := false;
        response.finalResponse := Some(line);
      } else if pdu.Some? && line == PROMPT {
        written := written + [pdu.value + CTRL_Z];
        pdu := None;
      } else {
        ProcessByKind(line);
      }
    }

    /** What the reader does while the command thread waits. */
    method Process(lines: seq<string>)
      requires Valid() && response != null
      modifies this`pdu, this`raw, this`unsolicited, this`written, response
      ensures Valid() && State() == After(kind, prefix, old(State()), lines)
      ensures forall node | node in response.spine :: node in old(response.spine) || fresh(node)
    {
      hide Chain, Step, State;
      for i := 0 to |lines|
        invariant Valid() && State() == After(kind, prefix, old(State()), lines[..i])
        invariant forall node | node in response.spine :: node in old(response.spine) || fresh(node)
      {
        ProcessLine(lines[i]);
        LastOf(kind, prefix, old(State()), lines[..i + 1]);
        assert Front(lines[..i + 1]) == lines[..i];
      }
      assert lines[..|lines|] == lines;
    }

    /** Forgets the pending command, if any. Raw data that was not asked for stays. */
    method ClearPendingCommand()
      modifies this`response, this`prefix, this`pdu
      ensures response == null && prefix == "" && pdu == None
    {
      response, prefix, pdu := null, "", None;
    }

    /** What a pending command starts with. */
    ghost function Start(pdu: Option<string>): Answer
      reads this
    {
      Answer(pdu, raw, [], None, false, unsolicited, written)
    }

    /** Waits for the final response, the end of the channel or the time limit. `rounds` counts the waits. */
    method AwaitFinal(waits: seq<Wait>) returns (inTime: bool, ghost rounds: nat)
      requires Valid() && response != null
      modifies this`pdu, this`raw, this`unsolicited, this`written, this`closed, response
      ensures Valid() && Heard(kind, prefix, old(State()), waits, rounds, State(), old(closed), closed)
      ensures inTime ==> response.finalResponse.Some? || closed
      ensures !inTime ==>
          (rounds == |waits| && response.finalResponse == None) || (rounds > 0 && waits[rounds - 1].timedOut)
      ensures forall node | node in response.spine :: node in old(response.spine) || fresh(node)
    {
      hide Chain, After, Heard, Reversed, Texts;
      rounds := 0;
      ghost var start := State();
      var i := 0;
      HeardNothing(kind, prefix, start, waits, closed);
      while response.finalResponse == None && !closed
        invariant Valid() && i == rounds <= |waits|
        invariant Heard(kind, prefix, start, waits, rounds, State(), old(closed), closed)
        invariant i > 0 ==> !waits[i - 1].timedOut
        invariant forall node | node in response.spine :: node in old(response.spine) || fresh(node)
        decreases |waits| - i
      {
        if i == |waits| {
          return false, rounds;
        }
        HeardMore(kind, prefix, start, waits, i, State(), old(closed), closed);
        Process(waits[i].lines);
        closed := closed || waits[i].closes;
        i, rounds := i + 1, rounds + 1;
        if waits[i - 1].timedOut {
          return false, rounds;
        }
      }
      inTime := true;
    }

    /** Gives the response to the caller, its lines in the order of arrival. */
    method HandOver() returns (answer: Response)
      requires Valid() && response != null
      modifies this`response, this`prefix, this`pdu
      modifies response`intermediates, response`spine, set node | node in response.spine
      ensures response == null && prefix == "" && pdu == None
      ensures answer == old(response) && answer.Valid() && Texts(answer.spine) == old(State()).taken
    {
      ghost var spine := response.spine;
      response.ReverseIntermediates();
      TextsReversed(spine);
      answer := response;
      ClearPendingCommand();
    }

    /**
     Sends a command and waits. Its answer consists of the wanted lines in the order of arrival and
     the last final response. A command sent while another is pending is refused, and the pending
     one is thrown away with what it got so far.
     */
    method SendCommand(accepted: bool, type_: Kind, responsePrefix: string, smspdu: Option<string>, waits: seq<Wait>)
      returns (err: Error, answer: Response?, ghost rounds: nat)
      requires Valid()
      modifies this
      ensures Valid() && response == null && prefix == "" && pdu == None
      ensures err == CommandPending <==> old(response) != null
      ensures old(response) != null ==> answer == null
      ensures old(response) == null && old(closed) ==> err == ChannelClosed && answer == null
      ensures old(response) == null && !old(closed) && !accepted ==> err == Generic && answer == null
      ensures old(response) != null || old(closed) || !accepted ==>
          rounds == 0 && raw == old(raw) && closed == old(closed) && unsolicited == old(unsolicited)
          && written == old(written)
      ensures answer == null ==> err != Ok
      ensures old(response) == null && !old(closed) && accepted ==>
                && rounds <= |waits|
                && (err == Ok || err == TimedOut || err == ChannelClosed)
                && (err == TimedOut ==> answer == null)
                && (err == TimedOut ==>
                      || (rounds == |waits| && FinalOf(old(raw).Some?, Arrived(waits[..rounds])) == None)
                      || (rounds > 0 && waits[rounds - 1].timedOut))
                && (err == ChannelClosed ==> closed)
                && (closed ==> rounds > 0 && waits[rounds - 1].closes)
                && Fulfilled(type_, responsePrefix, old(Start(smspdu)), Arrived(waits[..rounds]), raw, unsolicited,
                    written)
                && (rounds > 0 ==> FinalOf(old(raw).Some?, Arrived(waits[..rounds - 1])) == None)
      ensures answer != null ==>
                && fresh(answer) && answer.Valid() && rounds <= |waits|
                && Texts(answer.spine) == Expected(type_, responsePrefix, smspdu.Some?, Arrived(waits[..rounds]))
                && answer.finalResponse == FinalOf(old(raw).Some?, Arrived(waits[..rounds]))
                && (answer.finalResponse.Some? ==> answer.success == IsSuccess(answer.finalResponse.value))
                && (answer.finalResponse == None ==> err == ChannelClosed)
    {
      hide Chain, After, Heard, Reversed, Texts, Expected, FinalOf, IsSuccess, Fulfilled, Arrived, Wanted;
      answer, rounds := null, 0;
      if response != null {
        ClearPendingCommand();
        return CommandPending, null, 0;
      }
      if closed || !accepted {
        err := if closed then ChannelClosed else Generic;
        ClearPendingCommand();
        return err, null, 0;
      }
      err, answer, rounds := Pend(type_, responsePrefix, smspdu, waits);
    }

    /** From an accepted command to its answer. */
    method Pend(type_: Kind, responsePrefix: string, smspdu: Option<string>, waits: seq<Wait>)
      returns (err: Error, answer: Response?, ghost rounds: nat)
      requires Valid() && response == null && !closed
      modifies this
      ensures Valid() && response == null && prefix == "" && pdu == None
      ensures rounds <= |waits| && (err == Ok || err == TimedOut || err == ChannelClosed)
      ensures answer == null <==> err == TimedOut
      ensures err == TimedOut ==>
        || (rounds == |waits| && FinalOf(old(raw).Some?, Arrived(waits[..rounds])) == None)
        || (rounds > 0 && waits[rounds - 1].timedOut)
      ensures (err == ChannelClosed ==> closed) && (closed ==> rounds > 0 && waits[rounds - 1].closes)
      ensures Fulfilled(type_, responsePrefix, old(Start(smspdu)), Arrived(waits[..rounds]), raw, unsolicited, written)
      ensures rounds > 0 ==> FinalOf(old(raw).Some?, Arrived(waits[..rounds - 1])) == None
      ensures answer != null ==>
                && fresh(answer) && answer.Valid()
                && Texts(answer.spine) == Expected(type_, responsePrefix, smspdu.Some?, Arrived(waits[..rounds]))
                && answer.finalResponse == FinalOf(old(raw).Some?, Arrived(waits[..rounds]))
                && (answer.finalResponse.Some? ==> answer.success == IsSuccess(answer.finalResponse.value))
                && (answer.finalResponse == None ==> err == ChannelClosed)
    {
      hide Chain, After, Heard, Reversed, Texts, Expected, FinalOf, IsSuccess, Fulfilled, Arrived, Wanted;
      kind, prefix, pdu := type_, responsePrefix, smspdu;
      response := new Response();
      ghost var start := Start(smspdu);
      NoText();
      var inTime: bool;
      inTime, rounds := AwaitFinal(waits);
      Answered(kind, prefix, start, waits, rounds, State(), false, closed);
      if !inTime {
        ClearPendingCommand();
        return TimedOut, null, rounds;
      }
      answer := HandOver();
      err := if closed then ChannelClosed else Ok;
    }

    /**
     A command with raw data, which is set aside without the mutex and before anything else. It stays
     there exactly when the command is not sent, or no CONNECT arrives for it.
     */
    method SendRaw(accepted: bool, data: string, responsePrefix: string, waits: seq<Wait>)
      returns (err: Error, answer: Response?, ghost rounds: nat)
      requires Valid()
      modifies this
      ensures Valid() && response == null
      ensures
        var sent := old(response) == null && !old(closed) && accepted;
        && (!sent ==>
              && raw == Some(data) && closed == old(closed) && written == old(written)
              && err != Ok && err != TimedOut && answer == null)
        && (sent ==>
              && rounds <= |waits|
              && raw == (if CONNECT in Arrived(waits[..rounds]) then None else Some(data))
              && written == old(written) + (if CONNECT in Arrived(waits[..rounds]) then [data] else [])
              && (err == TimedOut ==> rounds == |waits| || (rounds > 0 && waits[rounds - 1].timedOut))
              && (err == Ok ==> FinalOf(true, Arrived(waits[..rounds])).Some?)
              && (err == Ok || err == TimedOut || err == ChannelClosed)
              && (err == ChannelClosed ==> closed) && (closed ==> rounds > 0 && waits[rounds - 1].closes))
    {
      hide FinalOf, IsSuccess, Expected, Arrived, CONNECT, PROMPT, Leftover, First;
      raw := Some(data);
      err, answer, rounds := SendCommand(accepted, SingleLine, responsePrefix, None, waits);
    }

    /** A single-line or numeric command: a success must come with its line. */
    method SendForOneLine(accepted: bool, type_: Kind, responsePrefix: string, smspdu: Option<string>, waits: seq<Wait>)
      returns (err: Error, answer: Response?)
      requires Valid() && (type_.SingleLine? || type_.Numeric?)
      modifies this
      ensures Valid() && response == null
      ensures err == Ok ==> answer != null && answer.Valid() && answer.finalResponse.Some?
      ensures err == Ok && answer.success ==>
          |Texts(answer.spine)| == 1 && Wanted(type_, responsePrefix, Texts(answer.spine)[0])
    {
      ghost var rounds: nat;
      err, answer, rounds := SendCommand(accepted, type_, responsePrefix, smspdu, waits);
      hide Wanted, FinalOf, IsSuccess, Fulfilled;
      if answer != null {
        CandidatesWanted(type_, responsePrefix, smspdu.Some?, Arrived(waits[..rounds]));
      }
      if err == Ok && answer.success && answer.intermediates == null {
        err, answer := InvalidResponse, null;
      }
    }
  }

  /**
   The command has waited `rounds` times and got `now` from the lines of these waits; only the last
   of them brought the final response, closed the channel or ran into the time limit.
   */
  ghost predicate Heard(kind: Kind, prefix: string, start: Answer, waits: seq<Wait>, rounds: nat, now: Answer,
                        wasClosed: bool, closed: bool) {
    && rounds <= |waits|
    && now == After(kind, prefix, start, Arrived(waits[..rounds]))
    && (forall i | 0 <= i < rounds - 1 :: !waits[i].timedOut && !waits[i].closes)
    && (rounds > 0 ==> !wasClosed && After(kind, prefix, start, Arrived(waits[..rounds - 1])).final == None)
    && closed == (wasClosed || (rounds > 0 && waits[rounds - 1].closes))
  }

  lemma HeardNothing(kind: Kind, prefix: string, start: Answer, waits: seq<Wait>, closed: bool)
    ensures Heard(kind, prefix, start, waits, 0, start, closed, closed)
  {
    assert waits[..0] == [];
  }

  lemma HeardMore(kind: Kind, prefix: string, start: Answer, waits: seq<Wait>, rounds: nat, now: Answer,
                  wasClosed: bool, closed: bool)
    requires Heard(kind, prefix, start, waits, rounds, now, wasClosed, closed) && rounds < |waits|
    requires now.final == None && !closed && (rounds > 0 ==> !waits[rounds - 1].timedOut)
    ensures Heard(kind, prefix, start, waits, rounds + 1, After(kind, prefix, now, waits[rounds].lines), wasClosed,
        closed || waits[rounds].closes)
  {
    hide After;
    assert waits[..rounds + 1][..rounds] == waits[..rounds];
    AfterAppend(kind, prefix, start, Arrived(waits[..rounds]), waits[rounds].lines);
  }

  lemma {:induction false} CandidatesWanted(kind: Kind, prefix: string, prompted: bool, lines: seq<string>)
    ensures forall line | line in Candidates(kind, prefix, prompted, lines) :: Wanted(kind, prefix, line)
  {
    if lines != [] {
      hide IsFinal, Wanted, PROMPT;
      CandidatesWanted(kind, prefix, prompted, Front(lines));
    }
  }

  /** The side effects of the lines that arrived: what the handler got, what stays pending, what was written. */
  ghost predicate Fulfilled(kind: Kind, prefix: string, start: Answer, lines: seq<string>,
                            raw: Option<string>, unsolicited: seq<string>, written: seq<string>) {
    && unsolicited == start.unsolicited + Leftover(kind, prefix, start.pdu.Some?, lines)
    && raw == (if CONNECT in lines then None else start.raw)
    && written == start.written + Transfers(start.pdu, start.raw, lines)
  }

  lemma NoText()
    ensures Reversed(Texts([])) == []
  {
  }

  lemma Answered(kind: Kind, prefix: string, start: Answer, waits: seq<Wait>, rounds: nat, now: Answer,
                 wasClosed: bool, closed: bool)
    requires Heard(kind, prefix, start, waits, rounds, now, wasClosed, closed) && Fresh(start)
    ensures rounds <= |waits|
        && Fulfilled(kind, prefix, start, Arrived(waits[..rounds]), now.raw, now.unsolicited, now.written)
    ensures now.taken == Expected(kind, prefix, start.pdu.Some?, Arrived(waits[..rounds]))
    ensures now.final == FinalOf(start.raw.Some?, Arrived(waits[..rounds]))
    ensures now.final.Some? ==> now.success == IsSuccess(now.final.value)
    ensures rounds > 0 ==> FinalOf(start.raw.Some?, Arrived(waits[..rounds - 1])) == None
    ensures closed ==> wasClosed || (rounds > 0 && waits[rounds - 1].closes)
  {
    hide After, Expected, FinalOf, IsSuccess, Leftover, Transfers, Arrived;
    var lines := Arrived(waits[..rounds]);
    TakenAreExpected(kind, prefix, start, lines);
    FinalIsLast(kind, prefix, start, lines);
    UnsolicitedAreLeftover(kind, prefix, start, lines);
    WrittenOnce(kind, prefix, start, lines);
    PendingData(kind, prefix, start, lines);
    if rounds > 0 {
      FinalIsLast(kind, prefix, start, Arrived(waits[..rounds - 1]));
    }
  }

  lemma OnlyConnect(waits: seq<Wait>, rounds: nat)
    requires waits == [Wait([CONNECT], false, false)] && rounds <= 1
    ensures Arrived(waits[..rounds]) == if rounds == 0 then [] else [CONNECT]
    ensures FinalOf(true, [CONNECT]) == FinalOf(true, []) == FinalOf(false, []) == None
    ensures FinalOf(false, [CONNECT]) == Some(CONNECT)
  {
    assert waits[..1] == waits && waits[..0] == [] && Front([CONNECT]) == [];
    ConnectIsFinal();
    assert Arrived(waits) == Arrived([]) + [CONNECT];
  }

  /** A plain command that is answered CONNECT: it succeeds if and only if no raw data is pending. */
  method SendAndConnect(c: Channel) returns (err: Error, answer: Response?)
    requires c.Valid() && c.response == null && !c.closed
    modifies c
    ensures c.Valid() && c.response == null && !c.closed
    ensures if old(c.raw) == None then err == Ok && answer != null && answer.finalResponse == Some(CONNECT)
            else err == TimedOut && answer == null && c.raw == None
  {
    hide FinalOf, Arrived, IsSuccess, Expected, IsFinal, CONNECT;
    ghost var rounds: nat;
    var waits := [Wait([CONNECT], false, false)];
    err, answer, rounds := c.SendCommand(true, NoResult, "", None, waits);
    OnlyConnect(waits, rounds);
    if rounds == 1 {
      assert CONNECT in [CONNECT];
    }
  }

  /**
   Two commands: the first one's raw data is not asked for within its time limit, and the second one,
   which has nothing to do with it, loses the CONNECT that answers it and times out as well.
   */
  method ConnectLost(c: Channel, data: string) returns (first: Error, second: Error)
    requires c.Valid() && c.response == null && !c.closed
    modifies c
    ensures first == TimedOut && second == TimedOut
  {
    hide Arrived, CONNECT;
    ghost var rounds: nat;
    var waits := [Wait([], false, true)];
    var answer;
    first, answer, rounds := c.SendRaw(true, data, "", waits);
    NothingArrives(waits, rounds);
    second, answer := SendAndConnect(c);
  }

  lemma NothingArrives(waits: seq<Wait>, rounds: nat)
    requires waits == [Wait([], false, true)] && rounds <= 1
    ensures Arrived(waits[..rounds]) == [] && FinalOf(true, []) == None
  {
    assert waits[..1] == waits && waits[..0] == [];
    assert Arrived(waits) == Arrived([]) + [];
  }
}

/** `Program.ReadAreas` (operation "areas"): asks the reader for areas 001 to
    250 with `RD`, one after the other, and prints the rectangle of each until
    one does not read as a rectangle. */
module AreaListing {
  import opened Outcomes
  import opened Text
  import opened Settings
  import opened Commands
  import opened Channel

  /** How one `RD` reply reads. */
  datatype Entry =
    | Coordinates(area: AreaConfig)   // four numbers, not all zero: printed
    | EndOfList                       // a slice that is not a number, or four zeros: the loop ends
    | Refused(reply: string)          // a reply starting with "ER,": fatal
    | Crash                           // too short for `Substring`: an unhandled exception

  /** The four `int.TryParse(pos.Substring(4 * k, 4))` of one position string,
      each slice taken only when the ones before it parsed. */
  function Position(pos: string): (e: Entry)
    ensures e.Coordinates? ==> |pos| >= 16
  {
    if |pos| < 4 then Crash
    else match ParseInt32(pos[0..4])
    case None => EndOfList
    case Some(x1) =>
      if |pos| < 8 then Crash
      else match ParseInt32(pos[4..8])
      case None => EndOfList
      case Some(y1) =>
        if |pos| < 12 then Crash
        else match ParseInt32(pos[8..12])
        case None => EndOfList
        case Some(x2) =>
          if |pos| < 16 then Crash
          else match ParseInt32(pos[12..16])
          case None => EndOfList
          case Some(y2) =>
            if x1 == 0 && y1 == 0 && x2 == 0 && y2 == 0 then EndOfList
            else Coordinates(AreaConfig(x1, y1, x2, y2))
  }

  /** A reply the reader sent without an error code: trimmed, refused when it
      starts with "ER,", otherwise split on ',' with the third field, when
      there are exactly three, as the position. */
  function ReadEntry(text: string): Entry
  {
    var result := Trim(text);
    if StartsWith(result, "ER,") then Refused(result)
    else
      var parts := Split(result, ',');
      Position(if |parts| == 3 then parts[2] else "")
  }

  /** One `Cmd($"RD,{areaNo}")`: an error code, which is fatal, or the entry of the reply. */
  datatype Answer = Failing | Answered(entry: Entry)

  function AnswerOf(r: Reply): Answer
  {
    if r.error.Some? then Failing else Answered(ReadEntry(r.text))
  }

  /** Each answer is the one to the reply at its position, counted from `base`. */
  ghost predicate AnsweredFrom(script: seq<Reply>, base: nat, answers: seq<Answer>)
  {
    forall m | base <= m < base + |answers| :: answers[m - base] == AnswerOf(ReplyAt(script, m))
  }

  /** The answers to `n` commands from position `base`. */
  ghost function Answers(script: seq<Reply>, base: nat, n: nat): (r: seq<Answer>)
    ensures |r| == n && AnsweredFrom(script, base, r)
  {
    var w := seq(n, i requires 0 <= i < n => AnswerOf(ReplyAt(script, base + i)));
    assert AnsweredFrom(script, base, w) by {
      forall m | base <= m < base + n
        ensures w[m - base] == AnswerOf(ReplyAt(script, m))
      {
        var i := m - base;
        assert base + i == m;
      }
    }
    // The ensures fix every element, so `r` is `w`; it is picked by `:|` so
    // that callers see the ensures and not the comprehension, which keeps
    // their proofs small.
    var r :| |r| == n && AnsweredFrom(script, base, r);
    r
  }

  /** The `i`-th answer is the one to command `base + i`. */
  lemma AnswersAt(script: seq<Reply>, base: nat, n: nat, i: nat)
    requires i < n
    ensures Answers(script, base, n)[i] == AnswerOf(ReplyAt(script, base + i))
  {
    var m := base + i;
    assert m - base == i;
  }

  /** The line printed for one area: `001: {"x1": 1, "y1": 2, "x2": 3, "y2": 4}`. */
  function Line(no: nat, a: AreaConfig): string
  {
    AreaNo(no) + ": {\"x1\": " + IntToString(a.x1) + ", \"y1\": " + IntToString(a.y1) +
      ", \"x2\": " + IntToString(a.x2) + ", \"y2\": " + IntToString(a.y2) + "}"
  }

  /** How the listing ends: normally, through `Err` with a message, or with an exception. */
  datatype Stop = Finished | Failed(message: string) | Crashed

  /** What the loop prints, how it ends and how many commands it sends. */
  datatype Listing = Listing(lines: seq<string>, stop: Stop, sent: nat)

  /** The loop from area `no` on, given the answers to its commands. */
  function ListFrom(answers: seq<Answer>, no: nat): Listing
    decreases |answers|
  {
    if answers == [] then Listing([], Finished, 0)
    else match answers[0]
      case Failing => Listing([], Failed(CommandFailed(ReadArea(no)).Message()), 1)
      case Answered(Refused(result)) => Listing([], Failed("Failed to read areas: " + result), 1)
      case Answered(Crash) => Listing([], Crashed, 1)
      case Answered(EndOfList) => Listing([], Finished, 1)
      case Answered(Coordinates(a)) =>
        var rest := ListFrom(answers[1..], no + 1);
        Listing([Line(no, a)] + rest.lines, rest.stop, rest.sent + 1)
  }

  /** The listing sends one command per answer it reads and prints one line
      per answer read except the one that ended it, which is the last answer
      unless all of them were read. */
  lemma {:induction false} ListFromBounds(answers: seq<Answer>, no: nat)
    ensures var l := ListFrom(answers, no);
      l.sent <= |answers| && (l.sent == |l.lines| || l.sent == |l.lines| + 1) &&
      (l.sent < |answers| || l.stop != Finished ==> l.sent == |l.lines| + 1)
    decreases |answers|
  {
    if answers != [] && answers[0].Answered? && answers[0].entry.Coordinates? {
      ListFromBounds(answers[1..], no + 1);
    }
  }

  /** The `j`-th printed line is the rectangle of the `j`-th answer, under area
      number `m`, the `j`-th from `no`. */
  lemma {:induction false} ListLineAt(answers: seq<Answer>, no: nat, j: nat, m: nat)
    requires j < |ListFrom(answers, no).lines| && m == no + j
    ensures j < |answers| && answers[j].Answered? && answers[j].entry.Coordinates?
    ensures ListFrom(answers, no).lines[j] == Line(m, answers[j].entry.area)
    decreases j
  {
    ListFromBounds(answers, no);
    var rest := ListFrom(answers[1..], no + 1);
    var lines := ListFrom(answers, no).lines;
    assert lines == [Line(no, answers[0].entry.area)] + rest.lines;
    if j > 0 {
      assert lines[j] == rest.lines[j - 1];
      ListLineAt(answers[1..], no + 1, j - 1, m);
      assert answers[1..][j - 1] == answers[j];
    }
  }

  /** `RD,<areaNo>` for the `n` areas from `no`. */
  function ReadCommands(no: nat, n: nat): (r: seq<Command>)
    ensures |r| == n
  {
    if n == 0 then [] else ReadCommands(no, n - 1) + [ReadArea(no + n - 1)]
  }

  /** After `k` areas, what the whole listing does is what it did so far followed
      by the listing of the remaining answers. */
  ghost predicate ListResumes(all: seq<Answer>, k: nat, lines: seq<string>)
    requires k <= |all|
  {
    var rest := ListFrom(all[k..], k + 1);
    ListFrom(all, 1) == Listing(lines + rest.lines, rest.stop, rest.sent + k)
  }

  /** One more area either ends the listing or prints its line and resumes. */
  lemma ListStep(all: seq<Answer>, k: nat, lines: seq<string>)
    requires k < |all| && ListResumes(all, k, lines)
    ensures var l := ListFrom(all, 1);
      match all[k]
      case Answered(Coordinates(a)) => ListResumes(all, k + 1, lines + [Line(k + 1, a)])
      case Failing => l == Listing(lines, Failed(CommandFailed(ReadArea(k + 1)).Message()), k + 1)
      case Answered(Refused(result)) => l == Listing(lines, Failed("Failed to read areas: " + result), k + 1)
      case Answered(Crash) => l == Listing(lines, Crashed, k + 1)
      case Answered(EndOfList) => l == Listing(lines, Finished, k + 1)
  {
    assert all[k..][0] == all[k];
    assert all[k..][1..] == all[k + 1..];
    assert lines + [] == lines;
    match all[k]
    case Answered(Coordinates(a)) =>
      var rest := ListFrom(all[k + 1..], k + 2);
      assert lines + ([Line(k + 1, a)] + rest.lines) == (lines + [Line(k + 1, a)]) + rest.lines;
    case _ =>
  }

  lemma ReadCommandsStep(log: seq<Command>, k: nat)
    ensures log + ReadCommands(1, k + 1) == (log + ReadCommands(1, k)) + [ReadArea(k + 1)]
  {
  }

  /** One turn of the loop: `Cmd($"RD,{areaNo}")` and the reading of its reply. */
  method ReadOne(reader: Reader, no: nat, ghost base: nat, ghost n: nat, ghost k: nat) returns (a: Answer)
    requires k < n && |reader.sent| == base + k
    modifies reader
    ensures reader.sent == old(reader.sent) + [ReadArea(no)]
    ensures a == Answers(reader.script, base, n)[k]
  {
    ghost var m := |reader.sent|;
    var res := Cmd(reader, ReadArea(no));
    assert m - base == k;
    assert Answers(reader.script, base, n)[k] == AnswerOf(ReplyAt(reader.script, m));
    if res.Halt? {
      return Failing;
    }
    var result := Trim(res.value);
    if StartsWith(result, "ER,") {
      return Answered(Refused(result));
    }
    var parts := Split(result, ',');
    var pos := if |parts| == 3 then parts[2] else "";
    return Answered(Position(pos));
  }

  /** `ReadAreas()`: the lines printed to standard output and how the loop ended. */
  method ReadAreas(reader: Reader) returns (lines: seq<string>, stop: Stop)
    modifies reader
    ensures var l := ListFrom(Answers(reader.script, |old(reader.sent)|, 250), 1);
      lines == l.lines && stop == l.stop && reader.sent == old(reader.sent) + ReadCommands(1, l.sent)
  {
    ghost var log := reader.sent;
    ghost var all := Answers(reader.script, |log|, 250);
    ghost var made: nat := 0;
    ListStart(all);
    lines := [];
    var i := 1;
    while i <= 250
      invariant i == made + 1 && made <= 250
      invariant reader.sent == log + ReadCommands(1, made)
      invariant ListResumes(all, made, lines)
      decreases 251 - i
    {
      var end;
      lines, end := ListNext(reader, i, lines, log, all, made);
      made := made + 1;
      if end.Some? {
        return lines, end.value;
      }
      i := i + 1;
    }
    ListExhausted(all, made, lines);
    return lines, Finished;
  }

  /** Before the first area, the listing is all still to come. */
  lemma ListStart(all: seq<Answer>)
    ensures ListResumes(all, 0, [])
  {
    assert all[0..] == all;
    assert [] + ListFrom(all, 1).lines == ListFrom(all, 1).lines;
  }

  /** Once every answer was read, the listing is over and finished normally. */
  lemma ListExhausted(all: seq<Answer>, k: nat, lines: seq<string>)
    requires k == |all| && ListResumes(all, k, lines)
    ensures ListFrom(all, 1).lines == lines && ListFrom(all, 1).stop == Finished && ListFrom(all, 1).sent == k
  {
    assert all[k..] == [];
    assert lines + [] == lines;
  }

  /** One turn of the `ReadAreas` loop for area `no`: `RD`, then either the end
      of the listing or one more line printed. */
  method ListNext(reader: Reader, no: nat, lines: seq<string>, ghost log: seq<Command>,
                  ghost all: seq<Answer>, ghost k: nat) returns (lines2: seq<string>, end: Option<Stop>)
    requires no == k + 1 && k < |all| && all == Answers(reader.script, |log|, |all|)
    requires reader.sent == log + ReadCommands(1, k) && ListResumes(all, k, lines)
    modifies reader
    ensures reader.sent == log + ReadCommands(1, k + 1)
    ensures end.Some? ==> var l := ListFrom(all, 1); lines2 == l.lines && end.value == l.stop && l.sent == k + 1
    ensures end.None? ==> ListResumes(all, k + 1, lines2)
  {
    ListStep(all, k, lines);
    var a := ReadOne(reader, no, |log|, |all|, k);
    ReadCommandsStep(log, k);
    lines2 := lines;
    match a {
      case Failing =>
        end := Some(Failed(CommandFailed(ReadArea(no)).Message()));
      case Answered(Refused(result)) =>
        end := Some(Failed("Failed to read areas: " + result));
      case Answered(Crash) =>
        end := Some(Crashed);
      case Answered(EndOfList) =>
        end := Some(Finished);
      case Answered(Coordinates(area)) =>
        lines2 := lines + [Line(no, area)];
        end := None;
    }
  }

  // ---------------------------------------------------------------------------
  // Round trip with `ToCommand`

  /** Each field of `ToCommand` reads back as its coordinate. */
  lemma FieldRoundTrip(v: int)
    requires 0 <= v <= 9999
    ensures ParseInt32(Field(v)) == Some(v)
  {
    assert IntToString(v) == NatToString(v);
    ParseInt32Padded(v, 4);
  }

  /** The position `ToCommand` writes for an area reads back as that area,
      unless all four coordinates are zero, which ends the listing. */
  lemma PositionRoundTrip(a: AreaConfig)
    requires a.InRange()
    ensures Position(a.ToCommand()) ==
      if a.x1 == 0 && a.y1 == 0 && a.x2 == 0 && a.y2 == 0 then EndOfList else Coordinates(a)
  {
    var s := a.ToCommand();
    ToCommandShape(a);
    FieldRoundTrip(a.x1);
    FieldRoundTrip(a.y1);
    FieldRoundTrip(a.x2);
    FieldRoundTrip(a.y2);
  }

  /** A reply of three comma-separated fields, the first not "ER" and not
      starting with white space, the last ending in a digit. */
  lemma ReplyFields(f0: string, f1: string, pos: string)
    requires f0 != "" && !IsWhiteSpace(f0[0]) && f0 != "ER"
    requires ',' !in f0 && ',' !in f1 && ',' !in pos
    requires pos != [] && IsDigit(pos[|pos| - 1])
    ensures var text := f0 + "," + f1 + "," + pos;
      Trim(text) == text && !StartsWith(text, "ER,") && Split(text, ',') == [f0, f1, pos]
  {
    var text := f0 + "," + f1 + "," + pos;
    ReplyTrimmed(f0, f1, pos);
    ReplyNotError(f0, f1, pos);
    assert text == f0 + [','] + f1 + [','] + pos;
    SplitThree(f0, f1, pos, ',');
  }

  lemma ReplyTrimmed(f0: string, f1: string, pos: string)
    requires f0 != "" && !IsWhiteSpace(f0[0])
    requires pos != [] && IsDigit(pos[|pos| - 1])
    ensures var text := f0 + "," + f1 + "," + pos; Trim(text) == text
  {
    var text := f0 + "," + f1 + "," + pos;
    assert text[|text| - 1] == pos[|pos| - 1];
    assert text[0] == f0[0];
    TrimUntouched(text);
  }

  lemma ReplyNotError(f0: string, f1: string, pos: string)
    requires f0 != "" && f0 != "ER" && ',' !in f0
    ensures !StartsWith(f0 + "," + f1 + "," + pos, "ER,")
  {
    var text := f0 + "," + f1 + "," + pos;
    if |f0| >= 3 {
      assert text[2] == f0[2];
    } else if |f0| == 2 {
      assert text[..2] == f0;
    } else {
      assert text[1] == ',';
    }
  }

  /** A reply of three comma-separated fields whose third is what `ToCommand`
      writes reads as that area (when it is not all zeros): `ReadAreas` prints
      back the rectangles that `Configure` sets. */
  lemma ReadEntryRoundTrip(f0: string, f1: string, a: AreaConfig)
    requires a.InRange() && !(a.x1 == 0 && a.y1 == 0 && a.x2 == 0 && a.y2 == 0)
    requires f0 != "" && !IsWhiteSpace(f0[0]) && f0 != "ER"
    requires ',' !in f0 && ',' !in f1
    ensures ReadEntry(f0 + "," + f1 + "," + a.ToCommand()) == Coordinates(a)
  {
    var pos := a.ToCommand();
    ToCommandShape(a);
    assert ',' !in pos by {
      forall i | 0 <= i < |pos| ensures pos[i] != ',' {
        assert IsDigit(pos[i]);
      }
    }
    ReplyFields(f0, f1, pos);
    PositionRoundTrip(a);
  }
}

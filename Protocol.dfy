/** `Program.Trigger`: the reader is asked to read with `LON` up to
    `1 + max(0, TriggerRetryCount)` times; each reply is a `|`-separated list of
    `code:areaNo` pieces whose codes are stored on the known areas, and the
    attempts stop once every area has a code. */
module Protocol {
  import opened Outcomes
  import opened Text
  import opened Settings
  import opened Areas
  import opened Commands
  import opened Channel

  /** The bank `Trigger` reads: the input's when it is not negative, else the configured one. */
  function EffectiveBank(inputBank: int, configBank: int): int
  {
    if inputBank >= 0 then inputBank else configBank
  }

  /** The number of attempts, `1 + Math.Max(0, TriggerRetryCount)`, counted without wrap-around. */
  function TryLimit(retries: int): (n: nat)
    ensures n >= 1 && n > retries
    ensures retries >= 0 ==> n == retries + 1
  {
    1 + if retries > 0 then retries else 0
  }

  /** The same bound as the C# statement computes it: `int` arithmetic is
      unchecked, so the addition wraps around at 32 bits. */
  function TryLimit32(retries: int): (n: int)
    requires IsInt32(retries)
    ensures IsInt32(n)
  {
    Wrap32(1 + if retries > 0 then retries else 0)
  }

  /** Below the largest `int` the computed bound is the intended one. */
  lemma TryLimit32Agrees(retries: int)
    requires IsInt32(retries) && retries < MaxInt32
    ensures TryLimit32(retries) == TryLimit(retries)
  {
  }

  /** With `TriggerRetryCount` at `int.MaxValue` the bound wraps to `int.MinValue`,
      so the condition `tryNo <= tryLimit` fails already for `tryNo = 1` and no
      trigger is sent at all. */
  lemma TryLimit32Overflow()
    ensures TryLimit32(MaxInt32) == MinInt32
    ensures !(1 <= TryLimit32(MaxInt32))
  {
  }

  /** With `TriggerRetryCount` one below `int.MaxValue` the bound is
      `int.MaxValue`: every 32-bit `tryNo`, and the one `++tryNo` wraps it to,
      passes `tryNo <= tryLimit`, so the loop ends only through its `break`. */
  lemma TryLimit32Unbounded(tryNo: int)
    requires IsInt32(tryNo)
    ensures tryNo <= TryLimit32(MaxInt32 - 1) && Wrap32(tryNo + 1) <= TryLimit32(MaxInt32 - 1)
  {
  }

  /** `n` copies of the trigger command for `bank`. */
  function Triggers(bank: int, n: nat): (r: seq<Command>)
    ensures |r| == n
  {
    if n == 0 then [] else Triggers(bank, n - 1) + [ReadOn(bank)]
  }

  /** Every one of them is the trigger command for `bank`. */
  lemma {:induction false} TriggersAt(bank: int, n: nat, i: nat)
    requires i < n
    ensures Triggers(bank, n)[i] == ReadOn(bank)
  {
    if i < n - 1 {
      TriggersAt(bank, n - 1, i);
    }
  }

  /** One more trigger extends a log that ends with triggers. */
  lemma SentOneMore(log: seq<Command>, bank: int, n: nat)
    ensures log + Triggers(bank, n + 1) == (log + Triggers(bank, n)) + [ReadOn(bank)]
  {
    assert Triggers(bank, n + 1) == Triggers(bank, n) + [ReadOn(bank)];
  }

  // ---------------------------------------------------------------------------
  // One reply

  /** One piece of a reply, trimmed and split on ':': the area number (part 1,
      or "000" without one) and the code (part 0). */
  function ParsePiece(piece: string): (string, string)
  {
    var parts := Split(Trim(piece), ':');
    (if |parts| > 1 then parts[1] else "000", parts[0])
  }

  function PiecesPairs(pieces: seq<string>): (r: seq<(string, string)>)
    ensures |r| == |pieces|
  {
    if pieces == [] then [] else PiecesPairs(pieces[..|pieces| - 1]) + [ParsePiece(pieces[|pieces| - 1])]
  }

  lemma {:induction false} PiecesPairsAt(pieces: seq<string>, i: nat)
    requires i < |pieces|
    ensures PiecesPairs(pieces)[i] == ParsePiece(pieces[i])
  {
    if i < |pieces| - 1 {
      PiecesPairsAt(pieces[..|pieces| - 1], i);
    }
  }

  /** The (area number, code) pairs of a reply, in reply order: the trimmed reply split on '|'. */
  function ReplyPairs(reply: string): seq<(string, string)>
  {
    PiecesPairs(Split(Trim(reply), '|'))
  }

  /** The codes after storing `pairs` one after the other, each only when its
      area number is a key. */
  function Store(codes: map<string, string>, pairs: seq<(string, string)>): (r: map<string, string>)
    ensures r.Keys == codes.Keys
    decreases |pairs|
  {
    if pairs == [] then codes
    else
      var c := Store(codes, pairs[..|pairs| - 1]);
      var (no, code) := pairs[|pairs| - 1];
      if no in c then c[no := code] else c
  }

  /** A `code:areaNo` piece with no white space around it and no ':' inside its
      parts is read as that area's code. */
  lemma ParsePieceNumbered(code: string, no: string)
    requires code != [] && !IsWhiteSpace(code[0]) && no != [] && !IsWhiteSpace(no[|no| - 1])
    requires ':' !in code && ':' !in no
    ensures ParsePiece(code + ":" + no) == (no, code)
  {
    var piece := code + ":" + no;
    assert piece[0] == code[0] && piece[|piece| - 1] == no[|no| - 1];
    TrimUntouched(piece);
    var parts := [code, no];
    assert Join(parts[1..], ':') == no;
    assert Join(parts, ':') == piece;
    SplitJoin(parts, ':');
  }

  /** A piece without a ':' is read as the code of area "000". */
  lemma ParsePieceBare(code: string)
    requires code != [] && !IsWhiteSpace(code[0]) && !IsWhiteSpace(code[|code| - 1]) && ':' !in code
    ensures ParsePiece(code) == ("000", code)
  {
    TrimUntouched(code);
  }

  /** A reply joined from pieces free of '|', with no white space at its ends,
      yields one pair per piece, in order. */
  lemma ReplyPairsOfPieces(pieces: seq<string>)
    requires |pieces| >= 1 && forall i :: 0 <= i < |pieces| ==> '|' !in pieces[i]
    requires var reply := Join(pieces, '|');
      reply == [] || (!IsWhiteSpace(reply[0]) && !IsWhiteSpace(reply[|reply| - 1]))
    ensures ReplyPairs(Join(pieces, '|')) == PiecesPairs(pieces)
  {
    TrimUntouched(Join(pieces, '|'));
    SplitJoin(pieces, '|');
  }

  /** An area no pair names keeps its code. */
  lemma {:induction false} StoreUntouched(codes: map<string, string>, pairs: seq<(string, string)>, no: string)
    requires no in codes
    requires forall i :: 0 <= i < |pairs| ==> pairs[i].0 != no
    ensures Store(codes, pairs)[no] == codes[no]
  {
    if pairs != [] {
      StoreUntouched(codes, pairs[..|pairs| - 1], no);
    }
  }

  /** A known area named by some pair ends with the code of the last pair naming it,
      empty codes included. */
  lemma {:induction false} StoreLastWins(codes: map<string, string>, pairs: seq<(string, string)>, i: nat)
    requires i < |pairs| && pairs[i].0 in codes
    requires forall j :: i < j < |pairs| ==> pairs[j].0 != pairs[i].0
    ensures Store(codes, pairs)[pairs[i].0] == pairs[i].1
  {
    var init := pairs[..|pairs| - 1];
    if i < |pairs| - 1 {
      assert init[i] == pairs[i];
      StoreLastWins(codes, init, i);
    }
  }

  // ---------------------------------------------------------------------------
  // The attempts

  /** Every area has a code. */
  predicate AllFulfilled(codes: map<string, string>)
  {
    forall no | no in codes :: Fulfilled(codes[no])
  }

  /** The table's own test is the test on its codes. */
  lemma FulfilledCodes(t: AreaTable)
    ensures t.AllFulfilled() <==> AllFulfilled(t.Codes())
  {
    if t.AllFulfilled() {
      forall no | no in t.Codes()
        ensures Fulfilled(t.Codes()[no])
      {
        assert t.results[no] in t.results.Values;
      }
    }
    if AllFulfilled(t.Codes()) {
      forall r | r in t.results.Values
        ensures r.IsFulfilled()
      {
        var no :| no in t.results && t.results[no] == r;
        assert Fulfilled(t.Codes()[no]);
      }
    }
  }

  /** Each batch is the pairs of the reply to the command at its position, counted from `base`. */
  ghost predicate ParsedFrom(script: seq<Reply>, base: nat, batches: seq<seq<(string, string)>>)
  {
    forall m | base <= m < base + |batches| :: batches[m - base] == ReplyPairs(ReplyAt(script, m).text)
  }

  /** The pairs of the replies to `n` commands from position `base`, one batch per reply. */
  ghost function Replies(script: seq<Reply>, base: nat, n: nat): (r: seq<seq<(string, string)>>)
    ensures |r| == n && ParsedFrom(script, base, r)
  {
    var w := seq(n, i requires 0 <= i < n => ReplyPairs(ReplyAt(script, base + i).text));
    assert ParsedFrom(script, base, w) by {
      forall m | base <= m < base + n
        ensures w[m - base] == ReplyPairs(ReplyAt(script, m).text)
      {
        var i := m - base;
        assert base + i == m;
      }
    }
    // The ensures fix every element, so `r` is `w`; it is picked by `:|` so
    // that callers see the ensures and not the comprehension, which keeps
    // their proofs small.
    var r :| |r| == n && ParsedFrom(script, base, r);
    r
  }

  /** The `i`-th batch is the pairs of the reply to command `base + i`. */
  lemma RepliesAt(script: seq<Reply>, base: nat, n: nat, i: nat)
    requires i < n
    ensures Replies(script, base, n)[i] == ReplyPairs(ReplyAt(script, base + i).text)
  {
    var m := base + i;
    assert m - base == i;
    assert ReplyAt(script, m) == ReplyAt(script, base + i);
  }

  /** The codes after storing the first `k` batches in turn, with no early stop. */
  function Attempted(codes: map<string, string>, batches: seq<seq<(string, string)>>, k: nat): (r: map<string, string>)
    requires k <= |batches|
    ensures r.Keys == codes.Keys
    decreases k
  {
    if k == 0 then codes else Attempted(Store(codes, batches[0]), batches[1..], k - 1)
  }

  /** The codes `Trigger` leaves and the number of attempts it makes. */
  datatype Tries = Tries(codes: map<string, string>, attempts: nat)

  /** The attempt loop over the successive replies: store a reply's pairs, then
      stop when every area has a code. */
  function Run(codes: map<string, string>, batches: seq<seq<(string, string)>>): Tries
    decreases |batches|
  {
    if batches == [] then Tries(codes, 0)
    else
      var next := Store(codes, batches[0]);
      if AllFulfilled(next) then Tries(next, 1)
      else
        var rest := Run(next, batches[1..]);
        Tries(rest.codes, rest.attempts + 1)
  }

  /** `Run` makes between one attempt and one per reply, and it stops before the
      last reply only when every area has a code. */
  lemma {:induction false} RunBounds(codes: map<string, string>, batches: seq<seq<(string, string)>>)
    ensures var r := Run(codes, batches);
      r.attempts <= |batches| && (batches != [] ==> r.attempts >= 1) &&
      (r.attempts < |batches| ==> AllFulfilled(r.codes))
    decreases |batches|
  {
    if batches != [] {
      var next := Store(codes, batches[0]);
      if !AllFulfilled(next) {
        RunBounds(next, batches[1..]);
      }
    }
  }

  /** What `Run` leaves is what storing the replies it read leaves. */
  lemma {:induction false} RunAttempted(codes: map<string, string>, batches: seq<seq<(string, string)>>)
    ensures var r := Run(codes, batches);
      r.attempts <= |batches| && r.codes == Attempted(codes, batches, r.attempts)
    decreases |batches|
  {
    if batches != [] {
      var next := Store(codes, batches[0]);
      if !AllFulfilled(next) {
        RunAttempted(next, batches[1..]);
      }
    }
  }

  /** No attempt before the last one of `Run` left every area with a code. */
  lemma {:induction false} RunFirstFulfilled(codes: map<string, string>, batches: seq<seq<(string, string)>>, j: nat)
    requires 1 <= j < Run(codes, batches).attempts
    ensures j <= |batches| && !AllFulfilled(Attempted(codes, batches, j))
    decreases |batches|
  {
    var next := Store(codes, batches[0]);
    assert !AllFulfilled(next);
    RunBounds(codes, batches);
    if j > 1 {
      RunFirstFulfilled(next, batches[1..], j - 1);
    }
  }

  /** Storing one more batch extends the attempts so far. */
  lemma {:induction false} AttemptedNext(codes: map<string, string>, batches: seq<seq<(string, string)>>, k: nat)
    requires k < |batches|
    ensures Attempted(codes, batches, k + 1) == Store(Attempted(codes, batches, k), batches[k])
    decreases k
  {
    if k > 0 {
      AttemptedNext(Store(codes, batches[0]), batches[1..], k - 1);
    }
  }

  /** `Run` stops at the first attempt that leaves every area with a code, or
      after the last reply: an attempt count with no fulfilled attempt before
      it, and either fulfilled or the last, is the count `Run` makes. */
  lemma {:induction false} RunStopsAt(codes: map<string, string>, batches: seq<seq<(string, string)>>, k: nat)
    requires k <= |batches|
    requires forall j :: 1 <= j < k ==> !AllFulfilled(Attempted(codes, batches, j))
    requires k == |batches| || (k >= 1 && AllFulfilled(Attempted(codes, batches, k)))
    ensures Run(codes, batches) == Tries(Attempted(codes, batches, k), k)
    decreases k
  {
    if k >= 1 {
      var next := Store(codes, batches[0]);
      assert Attempted(codes, batches, 1) == next;
      if k > 1 {
        assert !AllFulfilled(next);
        forall j | 1 <= j < k - 1
          ensures !AllFulfilled(Attempted(next, batches[1..], j))
        {
          assert Attempted(codes, batches, j + 1) == Attempted(next, batches[1..], j);
        }
        assert Attempted(codes, batches, k) == Attempted(next, batches[1..], k - 1);
        RunStopsAt(next, batches[1..], k - 1);
      } else if !AllFulfilled(next) {
        assert |batches| == 1;
      }
    }
  }

  // ---------------------------------------------------------------------------
  // The method

  /** `areaResults[areaNo].ReadCode = code` for a known area number: that area's
      code changes, and no other. */
  method SetCode(t: AreaTable, no: string, code: string)
    requires t.Valid() && no in t.results
    modifies t.results[no]
    ensures t.Codes() == old(t.Codes())[no := code]
  {
    ghost var before := t.Codes();
    t.results[no].readCode := code;
    forall k | k in t.results
      ensures t.Codes()[k] == before[no := code][k]
    {
      if k != no {
        DistinctObjects(t, k, no);
      }
    }
  }

  /** The `foreach` over the pieces of one reply: each piece's code is stored on
      its area when the area is known. */
  method StorePieces(t: AreaTable, pieces: seq<string>)
    requires t.Valid()
    modifies t.Objects()
    ensures t.Codes() == Store(old(t.Codes()), PiecesPairs(pieces))
  {
    ghost var codes0 := t.Codes();
    var i := 0;
    while i < |pieces|
      invariant 0 <= i <= |pieces|
      invariant t.Codes() == Store(codes0, PiecesPairs(pieces)[..i])
    {
      StorePiece(t, pieces, i, codes0);
      i := i + 1;
    }
    assert PiecesPairs(pieces)[..i] == PiecesPairs(pieces);
  }

  /** The body of that loop for the `i`-th piece: its code is stored on its
      area when the area is known. */
  method StorePiece(t: AreaTable, pieces: seq<string>, i: nat, ghost codes0: map<string, string>)
    requires t.Valid() && i < |pieces|
    requires t.Codes() == Store(codes0, PiecesPairs(pieces)[..i])
    modifies t.Objects()
    ensures t.Codes() == Store(codes0, PiecesPairs(pieces)[..i + 1])
  {
    ghost var before := t.Codes();
    PiecesPairsAt(pieces, i);
    ghost var pairs := PiecesPairs(pieces);
    StoreNext(codes0, pairs, i);
    var (areaNo, code) := ParsePiece(pieces[i]);
    assert Store(before, [(areaNo, code)]) == if areaNo in before then before[areaNo := code] else before;
    if areaNo in t.results {
      SetCode(t, areaNo, code);
    }
  }

  /** Storing one more pair: its code replaces the old one when its area is known. */
  lemma StoreNext(codes: map<string, string>, pairs: seq<(string, string)>, i: nat)
    requires i < |pairs|
    ensures Store(codes, pairs[..i + 1]) == Store(Store(codes, pairs[..i]), [pairs[i]])
  {
    assert pairs[..i + 1][..i] == pairs[..i];
    assert [pairs[i]][..0] == [];
  }

  /** One reply: trimmed, split on '|', and each piece stored. */
  method StoreReply(t: AreaTable, reply: string)
    requires t.Valid()
    modifies t.Objects()
    ensures t.Codes() == Store(old(t.Codes()), ReplyPairs(reply))
  {
    StorePieces(t, Split(Trim(reply), '|'));
  }

  /** After `k` attempts that left `codes`, the rest of the run over `all`
      started from `codes0` is the run over the remaining replies from `codes`. */
  ghost predicate Resumes(codes0: map<string, string>, all: seq<seq<(string, string)>>, k: nat, codes: map<string, string>)
    requires k <= |all|
  {
    var r := Run(codes, all[k..]);
    Run(codes0, all) == Tries(r.codes, r.attempts + k)
  }

  /** One more attempt either ends the run or resumes it one reply later. */
  lemma RunResume(codes0: map<string, string>, all: seq<seq<(string, string)>>, k: nat, codes: map<string, string>)
    requires k < |all| && Resumes(codes0, all, k, codes)
    ensures var next := Store(codes, all[k]);
      if AllFulfilled(next) then Run(codes0, all) == Tries(next, k + 1)
      else Resumes(codes0, all, k + 1, next)
  {
    assert all[k..][0] == all[k];
    assert all[k..][1..] == all[k + 1..];
  }

  /** One attempt: the trigger command is sent, its reply (the `i`-th of the
      replies `all` from position `base`) stored, and every area tested for a code. */
  method Attempt(reader: Reader, t: AreaTable, lon: Command, ghost base: nat, ghost n: nat, ghost i: nat)
    returns (fulfilled: bool)
    requires t.Valid() && i < n && |reader.sent| == base + i
    modifies reader, t.Objects()
    ensures reader.sent == old(reader.sent) + [lon]
    ensures t.Codes() == Store(old(t.Codes()), Replies(reader.script, base, n)[i])
    ensures fulfilled == AllFulfilled(t.Codes())
  {
    ghost var codes := t.Codes();
    RepliesAt(reader.script, base, n, i);
    var reply := reader.ExecCommand(lon);
    assert reply == ReplyAt(reader.script, base + i).text;
    assert t.Codes() == codes;
    StoreReply(t, reply);
    FulfilledCodes(t);
    fulfilled := t.AllFulfilled();
  }

  /** `Trigger()`: at most `TryLimit(TriggerRetryCount)` trigger commands, each
      reply stored, stopping after the first attempt that leaves every area
      with a code. Errors of the reader are not checked here. The bound is the
      intended one; the code computes `TryLimit32`, and its loop differs for a
      retry count of `int.MaxValue` (no attempt) and of `int.MaxValue - 1`
      (the counter wraps, so only the `break` ends the loop). */
  method Trigger(reader: Reader, t: AreaTable, config: Config, inputBank: int)
    requires t.Valid()
    modifies reader, t.Objects()
    ensures var r := Run(old(t.Codes()), Replies(reader.script, |old(reader.sent)|, TryLimit(config.triggerRetryCount)));
      t.Codes() == r.codes &&
      reader.sent == old(reader.sent) + Triggers(EffectiveBank(inputBank, config.bank), r.attempts)
  {
    var tryLimit := TryLimit(config.triggerRetryCount);
    var bank := if inputBank >= 0 then inputBank else config.bank;
    assert bank == EffectiveBank(inputBank, config.bank);
    TriggerLoop(reader, t, bank, tryLimit);
  }

  /** The loop of `Trigger()`: up to `tryLimit` attempts on `bank`. */
  method TriggerLoop(reader: Reader, t: AreaTable, bank: int, tryLimit: nat)
    requires t.Valid()
    modifies reader, t.Objects()
    ensures var r := Run(old(t.Codes()), Replies(reader.script, |old(reader.sent)|, tryLimit));
      t.Codes() == r.codes && reader.sent == old(reader.sent) + Triggers(bank, r.attempts)
  {
    var lon := ReadOn(bank);
    ghost var log := reader.sent;
    ghost var codes0 := t.Codes();
    ghost var all := Replies(reader.script, |log|, tryLimit);
    ghost var made: nat := 0;
    assert all[0..] == all;
    var tryNo := 1;
    while tryNo <= tryLimit
      invariant tryNo == made + 1 && made <= tryLimit
      invariant reader.sent == log + Triggers(bank, made)
      invariant Resumes(codes0, all, made, t.Codes())
      decreases tryLimit + 1 - tryNo
    {
      var fulfilled := NextAttempt(reader, t, lon, log, bank, codes0, all, made);
      made := made + 1;
      if fulfilled {
        return;
      }
      tryNo := tryNo + 1;
    }
    RunExhausted(codes0, all, made, t.Codes());
  }

  /** Once every reply was tried, the run is over. */
  lemma RunExhausted(codes0: map<string, string>, all: seq<seq<(string, string)>>, k: nat, codes: map<string, string>)
    requires k == |all| && Resumes(codes0, all, k, codes)
    ensures Run(codes0, all).codes == codes && Run(codes0, all).attempts == k
  {
    assert all[k..] == [];
  }

  /** One pass of the `Trigger` loop, after `k` attempts: one more trigger is
      sent, and the run either ends with it or resumes after it. */
  method NextAttempt(reader: Reader, t: AreaTable, lon: Command, ghost log: seq<Command>, ghost bank: int,
                     ghost codes0: map<string, string>, ghost all: seq<seq<(string, string)>>, ghost k: nat)
    returns (fulfilled: bool)
    requires t.Valid() && k < |all| && all == Replies(reader.script, |log|, |all|) && lon == ReadOn(bank)
    requires reader.sent == log + Triggers(bank, k) && Resumes(codes0, all, k, t.Codes())
    modifies reader, t.Objects()
    ensures reader.sent == log + Triggers(bank, k + 1)
    ensures fulfilled ==> t.Codes() == Run(codes0, all).codes
    ensures fulfilled ==> reader.sent == log + Triggers(bank, Run(codes0, all).attempts)
    ensures !fulfilled ==> Resumes(codes0, all, k + 1, t.Codes())
  {
    RunResume(codes0, all, k, t.Codes());
    fulfilled := Attempt(reader, t, lon, |log|, |all|, k);
    SentOneMore(log, bank, k);
  }
}

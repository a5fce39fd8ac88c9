/** The SR-5000 reader as the tool sees it: a command channel. The Keyence SDK
    (`ReaderAccessor`) is not part of this model; the reader is given as the
    script of what it answers, command after command. */
module Channel {
  import opened Outcomes
  import opened Commands

  /** What the reader answers to one command: the reply text, and the error code
      `LastErrorInfo` holds afterwards when it is not `ErrorCode.None`. */
  datatype Reply = Reply(text: string, error: Option<string>)

  /** The answer to the n-th command; past the end of the script, an empty reply with no error. */
  function ReplyAt(script: seq<Reply>, n: nat): Reply
  {
    if n < |script| then script[n] else Reply("", None)
  }

  /** The first of the `count` commands from position `base` whose answer carries an error. */
  function FirstFailure(script: seq<Reply>, base: nat, count: nat): (r: Option<nat>)
    ensures r.Some? ==> r.value < count
    decreases count
  {
    if count == 0 then None
    else if ReplyAt(script, base).error.Some? then Some(0)
    else
      match FirstFailure(script, base + 1, count - 1)
      case None => None
      case Some(j) => Some(j + 1)
  }

  /** The first failure is the first position whose answer carries an error,
      and there is none exactly when no answer in the block carries one. */
  lemma {:induction false} FirstFailureMeaning(script: seq<Reply>, base: nat, count: nat)
    ensures var r := FirstFailure(script, base, count);
      r.Some? ==> ReplyAt(script, base + r.value).error.Some?
    ensures var r := FirstFailure(script, base, count);
      r.Some? ==> forall n :: base <= n < base + r.value ==> ReplyAt(script, n).error.None?
    ensures FirstFailure(script, base, count).None? <==>
      forall n :: base <= n < base + count ==> ReplyAt(script, n).error.None?
    decreases count
  {
    if count > 0 && ReplyAt(script, base).error.None? {
      FirstFailureMeaning(script, base + 1, count - 1);
    }
  }

  /** The first failure carries an error. */
  lemma FailureHasError(script: seq<Reply>, base: nat, count: nat, k: nat)
    requires FirstFailure(script, base, count) == Some(k)
    ensures k < count && ReplyAt(script, base + k).error.Some?
  {
    FirstFailureMeaning(script, base, count);
  }

  /** Sending `m` commands and then `n` more fails where the first `m` fail, or
      else where the next `n` fail. */
  lemma FirstFailureSplit(script: seq<Reply>, base: nat, m: nat, n: nat)
    ensures FirstFailure(script, base, m + n) ==
      match FirstFailure(script, base, m)
      case Some(f) => Some(f)
      case None =>
        match FirstFailure(script, base + m, n)
        case Some(f) => Some(m + f)
        case None => None
  {
    var whole := FirstFailure(script, base, m + n);
    var first := FirstFailure(script, base, m);
    var second := FirstFailure(script, base + m, n);
    FirstFailureMeaning(script, base, m + n);
    FirstFailureMeaning(script, base, m);
    FirstFailureMeaning(script, base + m, n);
    if first.Some? {
      assert whole.Some?;
      assert !(whole.value < first.value) && !(first.value < whole.value);
    } else if second.Some? {
      assert whole.Some?;
      assert !(whole.value < m + second.value) && !(m + second.value < whole.value);
    } else {
      assert forall k :: base <= k < base + m + n ==> ReplyAt(script, k).error.None? by {
        forall k | base <= k < base + m + n ensures ReplyAt(script, k).error.None? {
          if k >= base + m {
            assert base + m <= k < base + m + n;
          }
        }
      }
    }
  }

  /** The error code of the answer to the `n`-th command, `None` before any
      command; past the end of the script, none. */
  function LastError(script: seq<Reply>, n: nat): Option<string>
  {
    if 0 < n <= |script| then script[n - 1].error else None
  }

  /** After `n` commands, `LastErrorInfo` is the error code of the `n`-th answer. */
  lemma LastErrorAfterSending(reader: Reader, n: nat)
    requires |reader.sent| == n
    ensures reader.LastErrorInfo() == LastError(reader.script, n)
  {
  }

  /** After a command, the last error code is the one its answer carries. */
  lemma LastErrorAfter(script: seq<Reply>, n: nat)
    ensures LastError(script, n + 1) == ReplyAt(script, n).error
  {
  }

  /** A connected `ReaderAccessor`. */
  class Reader {
    /** The answers, in the order the commands are sent. */
    const script: seq<Reply>
    /** Every command sent so far. */
    var sent: seq<Command>

    constructor (script: seq<Reply>)
      ensures this.script == script && sent == []
    {
      this.script := script;
      sent := [];
    }

    /** `LastErrorInfo`: the error code of the answer to the last command sent,
        `None` for `ErrorCode.None`. */
    function LastErrorInfo(): Option<string>
      reads this
    {
      LastError(script, |sent|)
    }

    /** `ExecCommand(cmd.Text())`: sends the command and returns the reply text. */
    method ExecCommand(cmd: Command) returns (text: string)
      modifies this
      ensures sent == old(sent) + [cmd]
      ensures text == ReplyAt(script, |old(sent)|).text
      ensures LastErrorInfo() == ReplyAt(script, |old(sent)|).error
    {
      text := ReplyAt(script, |sent|).text;
      sent := sent + [cmd];
    }
  }

  /** Why `Cmd` stops the program. */
  datatype Fault =
    | NotConnected(cmd: Command)    // there is no reader
    | CommandFailed(cmd: Command)   // the reader reported an error code
  {
    /** The message `Err` is called with. */
    function Message(): string
    {
      match this
      case NotConnected(cmd) => "Cannot execute command [" + cmd.Text() + "]: not connected."
      case CommandFailed(cmd) => "Failed to execute command [" + cmd.Text() + "]."
    }
  }

  /** The outcome of a run of commands: its value, or the fault that stopped it. */
  datatype Step<+T> = Done(value: T) | Halt(fault: Fault)

  /** Sending `cmds` one by one with `Cmd` took the log from `before` to `after`
      and ended in `r`: every command up to and including the first one whose
      answer carries an error is sent, and that one halts the run; when none
      fails, all are sent and the run is done. */
  predicate Outcome<T>(script: seq<Reply>, before: seq<Command>, after: seq<Command>, cmds: seq<Command>, r: Step<T>)
  {
    match FirstFailure(script, |before|, |cmds|)
    case None => r.Done? && after == before + cmds
    case Some(k) => r.Halt? && r.fault == CommandFailed(cmds[k]) && after == before + cmds[..k + 1]
  }

  /** A run that is done, followed by another run, is one run of both lists. */
  lemma OutcomeThen<T, U>(script: seq<Reply>, s0: seq<Command>, s1: seq<Command>, s2: seq<Command>,
                          xs: seq<Command>, ys: seq<Command>, r1: Step<T>, r2: Step<U>)
    requires Outcome(script, s0, s1, xs, r1) && r1.Done?
    requires Outcome(script, s1, s2, ys, r2)
    ensures Outcome(script, s0, s2, xs + ys, r2)
  {
    ghost var m := |s0| + |xs|;
    assert m == |s1|;
    FirstFailureSplit(script, |s0|, |xs|, |ys|);
    match FirstFailure(script, m, |ys|)
    case None =>
      assert s2 == (s0 + xs) + ys;
    case Some(k) =>
      assert (xs + ys)[|xs| + k] == ys[k];
      assert (xs + ys)[..|xs| + k + 1] == xs + ys[..k + 1];
  }

  /** A run that completed completed whatever value it is taken to produce. */
  lemma OutcomeDone<T, U>(script: seq<Reply>, s0: seq<Command>, s1: seq<Command>,
                          xs: seq<Command>, r: Step<T>, v: U)
    requires Outcome(script, s0, s1, xs, r) && r.Done?
    ensures Outcome(script, s0, s1, xs, Done(v))
  {
  }

  /** A run that halted within a prefix of a list halted the same way as a run of the whole list. */
  lemma OutcomeHalted<T, U>(script: seq<Reply>, s0: seq<Command>, s1: seq<Command>,
                           xs: seq<Command>, ws: seq<Command>, r: Step<T>)
    requires Outcome(script, s0, s1, xs, r) && r.Halt? && xs <= ws
    ensures Outcome(script, s0, s1, ws, Step<U>.Halt(r.fault))
  {
    var k := FirstFailure(script, |s0|, |xs|).value;
    FirstFailureSplit(script, |s0|, |xs|, |ws| - |xs|);
    assert ws[..k + 1] == xs[..k + 1];
  }

  /** A block whose first `a` commands had no error, and whose next one
      (the `n`-th command sent) had none either, has no error in its first a + 1. */
  lemma PassesAt(script: seq<Reply>, base: nat, a: nat, n: nat)
    requires n == base + a
    requires FirstFailure(script, base, a).None? && ReplyAt(script, n).error.None?
    ensures FirstFailure(script, base, a + 1).None?
  {
    FirstFailureSplit(script, base, a, 1);
  }

  /** A block whose first `a` commands had no error, and whose next one
      (the `n`-th command sent) had one, first fails at its position `a`. */
  lemma FailsAt(script: seq<Reply>, base: nat, a: nat, n: nat)
    requires n == base + a
    requires FirstFailure(script, base, a).None? && ReplyAt(script, n).error.Some?
    ensures FirstFailure(script, base, a + 1) == Some(a)
  {
    assert FirstFailure(script, n, 1) == Some(0);
    FirstFailureSplit(script, base, a, 1);
  }

  /** A run of `xs` that went through, followed by a command `c` that failed,
      is a halted run of any list that starts with `xs` and `c`. */
  lemma OutcomeStop<T>(script: seq<Reply>, log: seq<Command>, pre: seq<Command>, sent: seq<Command>,
                       xs: seq<Command>, c: Command, ws: seq<Command>, r: Step<T>)
    requires pre == log + xs && FirstFailure(script, |log|, |xs|).None?
    requires sent == pre + [c] && ReplyAt(script, |pre|).error.Some?
    requires xs + [c] <= ws && r.Halt? && r.fault == CommandFailed(c)
    ensures Outcome(script, log, sent, ws, r)
  {
    FailsAt(script, |log|, |xs|, |pre|);
    assert |xs + [c]| == |xs| + 1;
    assert (xs + [c])[..|xs| + 1] == xs + [c];
    assert Outcome(script, log, sent, xs + [c], r);
    OutcomeHalted<T, T>(script, log, sent, xs + [c], ws, r);
  }

  /** `Program.Cmd`: a command whose failure is fatal. Without a reader nothing is
      sent; otherwise the command is sent and an error code halts. */
  method Cmd(reader: Reader?, cmd: Command) returns (r: Step<string>)
    modifies reader
    ensures reader == null ==> r == Halt(NotConnected(cmd))
    ensures reader != null ==>
      var reply := ReplyAt(reader.script, |old(reader.sent)|);
      reader.sent == old(reader.sent) + [cmd] &&
      r == if reply.error.Some? then Halt(CommandFailed(cmd)) else Done(reply.text)
    ensures reader != null ==> Outcome(reader.script, old(reader.sent), reader.sent, [cmd], r)
  {
    if reader == null {
      return Halt(NotConnected(cmd));
    }
    var text := reader.ExecCommand(cmd);
    if reader.LastErrorInfo().Some? {
      return Halt(CommandFailed(cmd));
    }
    return Done(text);
  }
}

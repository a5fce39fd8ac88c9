/** `Program.Main` with `Err`, `ReadInput`, `ReadConfig` and the two operations:
    "trigger" (choose the profile, configure the areas, trigger, judge the
    codes) and "areas" (list the areas the reader holds). The reader, the FTP
    transfers and the file system are given as parameters: the reader as its
    script of replies (or none when `Connect` fails), the rest as the outcome
    each step has. */
module Program {
  import opened Outcomes
  import opened Text
  import opened Settings
  import opened Inputs
  import opened Areas
  import opened Commands
  import opened Channel
  import opened Selection
  import opened AreaSetup
  import opened Protocol
  import opened Verdict
  import opened AreaListing

  // ---------------------------------------------------------------------------
  // How the program ends

  /** How a run of the tool ends. */
  datatype Exit =
    | Fatal(message: string, stdout: seq<string>)   // `Err`: the message is logged, exit code 1
    | Unhandled(stdout: seq<string>)                // an unhandled exception
    | Listed(stdout: seq<string>)                   // "areas": the lines printed
    | Checked(verdict: string, diagnostics: seq<string>, image: seq<Stroke>)
      // "trigger": the verdict printed, the check's log lines, the rectangles drawn

  /** What the steps outside the reader's command channel do: the error code a
      failed `Connect` leaves, whether the FTP opens, and the message each later
      step fails with, if it fails. */
  datatype Env = Env(
    connectError: Option<string>,   // `LastErrorInfo` of the last `ReaderAccessor` when `Connect` fails
    ftpOpens: bool,                 // `reader.OpenFtp()`
    oldImages: Option<string>,      // `DeleteOldImages`: the `Err` message
    download: Option<string>,       // `DownloadNewImage`: the `Err` message
    saveImage: Option<string>)      // `PrepareResultImage`: the exception's message

  /** A run: how it ends and the commands it sent to the reader. */
  datatype Transcript = Transcript(exit: Exit, sent: seq<Command>)

  const ConnectFailure: string := "Failed to connect to the reader."
  const FtpFailure: string := "Failed to open the FTP."
  const NoticeHead: string := " Last SR-5000 error: "

  /** The message `Err` logs: the reader's last error code is appended when
      there is a reader and its last answer carried one. */
  function ErrMessage(message: string, last: Option<string>): string
  {
    if last.Some? then message + NoticeHead + last.value else message
  }

  /** The message is kept as it is, and an error code, when there is one, is
      its tail after the notice. */
  lemma ErrMessageNamesError(message: string, last: Option<string>)
    ensures var r := ErrMessage(message, last);
      message <= r && (last.None? <==> r == message) &&
      (last.Some? ==> r[|message|..] == NoticeHead + last.value && r[|r| - |last.value|..] == last.value)
  {
    var r := ErrMessage(message, last);
    if last.Some? {
      assert r == message + (NoticeHead + last.value);
      assert r[|r| - |last.value|..] == last.value;
    }
  }

  function ScriptOf(reader: Reader?): seq<Reply>
  {
    if reader == null then [] else reader.script
  }

  function SentOf(reader: Reader?): seq<Command>
    reads reader
  {
    if reader == null then [] else reader.sent
  }

  // ---------------------------------------------------------------------------
  // ReadInput

  const InputFailure: string := "Failed to read the input args: "

  /** `ReadInput`: the arguments, then the developer's input file when there is one. */
  function InputRead(args: seq<string>, files: map<string, InputJson>, dev: Option<InputJson>): Result<InputState>
  {
    match ParseArgs(args, files)
    case Err(m) => Err(InputFailure + m)
    case Ok(st) =>
      if dev.None? then Ok(st)
      else
        match Merge(st, dev.value)
        case Err(m) => Err(InputFailure + m)
        case Ok(merged) => Ok(merged)
  }

  /** `ReadInput`. The message of a failure is the one `Err` is called with. */
  method ReadInput(args: seq<string>, files: map<string, InputJson>, dev: Option<InputJson>)
    returns (input: Input, err: Option<string>)
    ensures fresh(input)
    ensures InputRead(args, files, dev).Err? ==> err == Some(InputRead(args, files, dev).message)
    ensures InputRead(args, files, dev).Ok? ==> err.None? && input.State() == InputRead(args, files, dev).value
  {
    input, err := Input.CreateFromArgs(args, files);
    if err.Some? {
      return input, Some(InputFailure + err.value);
    }
    if dev.Some? {
      err := input.ReadFromFile(dev.value);
      if err.Some? {
        return input, Some(InputFailure + err.value);
      }
    }
  }

  /** A failure to read the input always carries the heading of `ReadInput`. */
  lemma InputFailureHeaded(args: seq<string>, files: map<string, InputJson>, dev: Option<InputJson>)
    requires InputRead(args, files, dev).Err?
    ensures InputFailure <= InputRead(args, files, dev).message
  {
  }

  /** Without a developer's file the input is the arguments' exactly. */
  lemma InputWithoutDevFile(args: seq<string>, files: map<string, InputJson>)
    ensures ParseArgs(args, files).Ok? ==> InputRead(args, files, None) == ParseArgs(args, files)
    ensures ParseArgs(args, files).Err? ==> InputRead(args, files, None).Err?
  {
  }

  // ---------------------------------------------------------------------------
  // The expected table after a trigger

  /** No area has a code: every number of the layout maps to "". */
  function Blank(n: nat): (m: map<string, string>)
    ensures forall no :: no in m <==> no in Numbers(n)
  {
    map no | no in Numbers(n) :: ""
  }

  function CodeOf(codes: map<string, string>, no: string): string
  {
    if no in codes then codes[no] else ""
  }

  /** The component of an item; an item with no component has none of its areas configured. */
  function ComponentOf(cs: seq<Component>, item: string): Component
  {
    match Lookup(cs, item)
    case Some(c) => c
    case None => Component(item, "", 0)
  }

  /** `areaResults.Values` once the codes `codes` are stored: the i-th area of
      the layout, its item's component and the code under number i + 1. */
  function Expected(layout: seq<(string, AreaConfig)>, cs: seq<Component>, codes: map<string, string>)
    : (s: seq<AreaSnapshot>)
    ensures |s| == |layout|
  {
    seq(|layout|, i requires 0 <= i < |layout| =>
      AreaSnapshot(layout[i].1, ComponentOf(cs, layout[i].0), CodeOf(codes, AreaNo(i + 1))))
  }

  /** A table just set up for `n` areas holds no code for any of its numbers. */
  lemma UnreadCodes(t: AreaTable, n: nat)
    requires t.Valid() && t.nos == Numbers(n) && Unread(t)
    ensures t.Codes() == Blank(n)
  {
    var c := t.Codes();
    var b := Blank(n);
    forall no ensures no in c <==> no in b {
      assert no in t.results <==> no in t.nos;
    }
    forall no | no in c ensures c[no] == "" {
      assert t.results[no].readCode == "";
    }
    SameMaps(c, b);
  }

  lemma SameMaps(a: map<string, string>, b: map<string, string>)
    requires forall k :: k in a <==> k in b
    requires forall k | k in a :: a[k] == "" && b[k] == ""
    ensures a == b
  {
  }

  /** Whatever codes are stored, the table's values are the expected ones for its layout. */
  lemma SnapshotsExpected(t: AreaTable, layout: seq<(string, AreaConfig)>, cs: seq<Component>)
    requires Recorded(t, layout, cs)
    ensures forall i :: 0 <= i < |t.nos| ==> t.nos[i] in t.results
    ensures t.Snapshots() == Expected(layout, cs, t.Codes())
  {
    ListedAreLookedUp(t);
    var s := t.Snapshots();
    var e := Expected(layout, cs, t.Codes());
    forall i | 0 <= i < |layout| ensures s[i] == e[i] {
      SnapshotAt(t, layout, cs, i);
    }
    SameSnapshots(s, e);
  }

  lemma SameSnapshots(s: seq<AreaSnapshot>, e: seq<AreaSnapshot>)
    requires |s| == |e| && forall i :: 0 <= i < |s| ==> s[i] == e[i]
    ensures s == e
  {
  }

  lemma SnapshotAt(t: AreaTable, layout: seq<(string, AreaConfig)>, cs: seq<Component>, i: nat)
    requires Recorded(t, layout, cs) && i < |layout|
    ensures t.nos[i] in t.results
    ensures t.results[t.nos[i]].Snapshot() == Expected(layout, cs, t.Codes())[i]
  {
    NumbersAt(|layout|, i);
    var no := t.nos[i];
    assert no == AreaNo(i + 1);
    assert t.results[no].area == layout[i].1;
    assert t.results[no].component == ComponentOf(cs, layout[i].0);
    assert t.Codes()[no] == t.results[no].readCode;
  }

  /** The attempts only change codes of known areas. */
  lemma {:induction false} RunKeys(codes: map<string, string>, batches: seq<seq<(string, string)>>)
    ensures Run(codes, batches).codes.Keys == codes.Keys
    decreases |batches|
  {
    if batches != [] {
      var next := Store(codes, batches[0]);
      if !AllFulfilled(next) {
        RunKeys(next, batches[1..]);
      }
    }
  }

  /** A profile whose items are all found, with the right quantities, has a
      component for every item that has areas. */
  lemma CoveredPresent(l: LuminaryConfig, cs: seq<Component>)
    requires Covered(l.leds, cs) && Covered(l.optics, cs)
    ensures ItemsPresent(l, cs)
  {
  }

  // ---------------------------------------------------------------------------
  // The "trigger" operation

  /** What "trigger" does, from `ValidateInputConfig` to `CheckResults`, when
      the reader answers with `script` from its `base`-th command on. */
  ghost function TriggerTranscript(config: Config, st: InputState, connected: bool, script: seq<Reply>,
                                   base: nat, env: Env): Transcript
  {
    match Selected(config, st)
    case Err(m) => Transcript(Fatal(m, []), [])
    case Ok(l) => ProfileTranscript(config, st, l, connected, script, base, env)
  }

  /** "trigger" once the profile `l` is chosen: `Connect`, `OpenFtp`,
      `DeleteOldImages`, `Configure`, then the rest. */
  ghost function ProfileTranscript(config: Config, st: InputState, l: LuminaryConfig, connected: bool,
                                   script: seq<Reply>, base: nat, env: Env): Transcript
  {
    if !connected then Transcript(Fatal(ErrMessage(ConnectFailure, env.connectError), []), [])
    else if !env.ftpOpens then Transcript(Fatal(ErrMessage(FtpFailure, LastError(script, base)), []), [])
    else if env.oldImages.Some? then
      Transcript(Fatal(ErrMessage(env.oldImages.value, LastError(script, base)), []), [])
    else ConfiguredTranscript(config, st, l, script, base, env)
  }

  /** "trigger" once the reader and the FTP are open: `Configure`, then the
      rest unless a command of it fails. */
  ghost function ConfiguredTranscript(config: Config, st: InputState, l: LuminaryConfig, script: seq<Reply>,
                                      base: nat, env: Env): Transcript
  {
    var cmds := ConfigCommands(l);
    match FirstFailure(script, base, |cmds|)
    case Some(k) => Halted(cmds, script, base, k)
    case None =>
      var rest := TriggeredTranscript(config, st, l, script, base + |cmds|, env);
      Transcript(rest.exit, cmds + rest.sent)
  }

  /** "trigger" when the `k`-th of the commands `cmds` sent from position
      `base` on fails: `Err` on that command, after sending it and those before. */
  function Halted(cmds: seq<Command>, script: seq<Reply>, base: nat, k: nat): Transcript
    requires k < |cmds|
  {
    Transcript(Fatal(ErrMessage(CommandFailed(cmds[k]).Message(), ReplyAt(script, base + k).error), []),
               cmds[..k + 1])
  }

  /** "trigger" once the areas are configured, the reader answering the
      triggers from its `at`-th command on: `Trigger`, `DownloadNewImage`,
      `PrepareResultImage`, `CheckResults`. */
  ghost function TriggeredTranscript(config: Config, st: InputState, l: LuminaryConfig, script: seq<Reply>,
                                     at: nat, env: Env): Transcript
  {
    var tries := Run(Blank(|Layout(l)|), Replies(script, at, TryLimit(config.triggerRetryCount)));
    Transcript(Finished(Expected(Layout(l), st.components, tries.codes), LastError(script, at + tries.attempts), env),
               Triggers(EffectiveBank(st.bank, config.bank), tries.attempts))
  }

  /** How "trigger" ends once the table holds `values`, `last` being the
      reader's last error code. */
  function Finished(values: seq<AreaSnapshot>, last: Option<string>, env: Env): Exit
  {
    if env.download.Some? then Fatal(ErrMessage(env.download.value, last), [])
    else if env.saveImage.Some? then Fatal(ImageFailure + env.saveImage.value, [])
    else Checked(VerdictLine(values), ["Checking the results..."] + Diagnostics(Invalid(values)), Strokes(values))
  }

  /** The parts of a "trigger" after the configuration. */
  lemma TriggeredParts(config: Config, st: InputState, l: LuminaryConfig, script: seq<Reply>, at: nat, env: Env,
                       tries: Tries)
    requires tries == Run(Blank(|Layout(l)|), Replies(script, at, TryLimit(config.triggerRetryCount)))
    ensures var s := TriggeredTranscript(config, st, l, script, at, env);
      s.sent == Triggers(EffectiveBank(st.bank, config.bank), tries.attempts) &&
      s.exit == Finished(Expected(Layout(l), st.components, tries.codes), LastError(script, at + tries.attempts), env)
  {
  }

  const ImageFailure: string := "Failed to save the result image: "

  /** The "trigger" branch of `Main`, on the reader `Connect` left (none when it failed). */
  method RunTrigger(reader: Reader?, config: Config, input: Input, env: Env) returns (exit: Exit)
    modifies reader
    ensures var s := TriggerTranscript(config, input.State(), reader != null, ScriptOf(reader),
                                       |old(SentOf(reader))|, env);
      exit == s.exit && SentOf(reader) == old(SentOf(reader)) + s.sent
  {
    var chosen := ValidateInputConfig(config, input);
    if chosen.Err? {
      return Fatal(chosen.message, []);
    }
    SelectedMeaning(config, input.State());
    CoveredPresent(chosen.value, input.components);
    exit := RunProfile(reader, config, input, chosen.value, env);
  }

  /** `Connect` to `CheckResults` for the chosen profile. */
  method RunProfile(reader: Reader?, config: Config, input: Input, l: LuminaryConfig, env: Env) returns (exit: Exit)
    requires ItemsPresent(l, input.components)
    modifies reader
    ensures var s := ProfileTranscript(config, input.State(), l, reader != null, ScriptOf(reader),
                                       |old(SentOf(reader))|, env);
      exit == s.exit && SentOf(reader) == old(SentOf(reader)) + s.sent
  {
    if reader == null {
      return Fatal(ErrMessage(ConnectFailure, env.connectError), []);
    }
    if !env.ftpOpens {
      return Fatal(ErrMessage(FtpFailure, reader.LastErrorInfo()), []);
    }
    if env.oldImages.Some? {
      return Fatal(ErrMessage(env.oldImages.value, reader.LastErrorInfo()), []);
    }
    ghost var st := input.State();
    exit := RunConfigured(reader, config, input, l, env, st, |reader.sent|);
    assert input.State() == st;
    assert ScriptOf(reader) == reader.script;
  }

  /** `Configure` to `CheckResults`, once the reader and the FTP are open. */
  method RunConfigured(reader: Reader, config: Config, input: Input, l: LuminaryConfig, env: Env,
                       ghost st: InputState, ghost base: nat)
    returns (exit: Exit)
    requires ItemsPresent(l, input.components)
    requires st == input.State() && base == |reader.sent|
    modifies reader
    ensures var s := ConfiguredTranscript(config, st, l, reader.script, base, env);
      exit == s.exit && reader.sent == old(reader.sent) + s.sent
  {
    ghost var log := reader.sent;
    ghost var cmds := ConfigCommands(l);
    var configured := Configure(reader, l, input.components);
    if configured.Halt? {
      ghost var k := FirstFailure(reader.script, base, |cmds|).value;
      ProfileHalts(config, st, l, reader.script, base, env, k);
      assert configured.fault == CommandFailed(cmds[k]);
      assert reader.sent == log + cmds[..k + 1];
      assert |reader.sent| == base + k + 1;
      LastErrorAfterSending(reader, base + k + 1);
      LastErrorAfter(reader.script, base + k);
      exit := Fatal(ErrMessage(configured.fault.Message(), reader.LastErrorInfo()), []);
      assert exit == Halted(cmds, reader.script, base, k).exit;
      return;
    }
    var t := configured.value;
    assert reader.sent == log + cmds;
    NumberedMeaning(t, Layout(l), input.components);
    ghost var at := base + |cmds|;
    exit := RunTriggered(reader, config, input, l, t, env, st, at);
    ProfileGoesOn(config, st, l, reader.script, base, at, env);
    ghost var rest := TriggeredTranscript(config, st, l, reader.script, at, env);
    Associative(log, cmds, rest.sent);
    assert reader.sent == log + (cmds + rest.sent);
  }

  /** The transcript of a "trigger" whose configuration fails at command `k`. */
  lemma ProfileHalts(config: Config, st: InputState, l: LuminaryConfig, script: seq<Reply>, base: nat, env: Env,
                     k: nat)
    requires FirstFailure(script, base, |ConfigCommands(l)|) == Some(k)
    ensures k < |ConfigCommands(l)|
    ensures ConfiguredTranscript(config, st, l, script, base, env) == Halted(ConfigCommands(l), script, base, k)
  {
  }

  /** The transcript of a "trigger" whose configuration succeeds. */
  lemma ProfileGoesOn(config: Config, st: InputState, l: LuminaryConfig, script: seq<Reply>, base: nat, at: nat,
                      env: Env)
    requires FirstFailure(script, base, |ConfigCommands(l)|).None? && at == base + |ConfigCommands(l)|
    ensures var rest := TriggeredTranscript(config, st, l, script, at, env);
      ConfiguredTranscript(config, st, l, script, base, env) == Transcript(rest.exit, ConfigCommands(l) + rest.sent)
  {
  }

  /** `Trigger` to `CheckResults` on the table `Configure` set up. */
  method RunTriggered(reader: Reader, config: Config, input: Input, l: LuminaryConfig, t: AreaTable, env: Env,
                      ghost st: InputState, ghost at: nat)
    returns (exit: Exit)
    requires Recorded(t, Layout(l), input.components) && Unread(t)
    requires st == input.State() && at == |reader.sent|
    modifies reader, t.Objects()
    ensures var s := TriggeredTranscript(config, st, l, reader.script, at, env);
      exit == s.exit && reader.sent == old(reader.sent) + s.sent
  {
    UnreadCodes(t, |Layout(l)|);
    ghost var log := reader.sent;
    ghost var tries := Run(Blank(|Layout(l)|), Replies(reader.script, at, TryLimit(config.triggerRetryCount)));
    TriggeredParts(config, st, l, reader.script, at, env, tries);
    Trigger(reader, t, config, input.bank);
    assert input.State() == st;
    assert t.Codes() == tries.codes;
    assert |reader.sent| == at + tries.attempts;
    ghost var last := LastError(reader.script, at + tries.attempts);
    LastErrorAfterSending(reader, at + tries.attempts);
    SnapshotsExpected(t, Layout(l), input.components);
    ghost var values := Expected(Layout(l), st.components, tries.codes);
    assert t.Snapshots() == values;
    exit := Finish(t.Snapshots(), reader.LastErrorInfo(), env);
    assert exit == Finished(values, last, env);
  }

  /** `DownloadNewImage`, `PrepareResultImage` and `CheckResults` once the
      table holds `values`. */
  method Finish(values: seq<AreaSnapshot>, last: Option<string>, env: Env) returns (exit: Exit)
    ensures exit == Finished(values, last, env)
  {
    if env.download.Some? {
      return Fatal(ErrMessage(env.download.value, last), []);
    }
    if env.saveImage.Some? {
      return Fatal(ImageFailure + env.saveImage.value, []);
    }
    var diagnostics, verdict := CheckResults(values);
    return Checked(verdict, diagnostics, Strokes(values));
  }

  /** Once the reader is connected, the FTP open and no old image left, "trigger"
      goes on with `Configure`. */
  lemma ProfileConfigured(config: Config, st: InputState, l: LuminaryConfig, script: seq<Reply>, base: nat,
                          env: Env)
    requires env.ftpOpens && env.oldImages.None?
    ensures ProfileTranscript(config, st, l, true, script, base, env) == ConfiguredTranscript(config, st, l, script, base, env)
  {
  }

  /** A failing command of `Configure` stops "trigger" at that command, with
      its text and the reader's error code in the message. */
  lemma ProfileCommandFailure(config: Config, st: InputState, l: LuminaryConfig, script: seq<Reply>, base: nat,
                              env: Env, k: nat)
    requires FirstFailure(script, base, |ConfigCommands(l)|) == Some(k)
    ensures var cmds := ConfigCommands(l);
      var s := ConfiguredTranscript(config, st, l, script, base, env);
      k < |cmds| && ReplyAt(script, base + k).error.Some? &&
      s.sent == cmds[..k + 1] &&
      s.exit == Fatal("Failed to execute command [" + cmds[k].Text() + "]." + NoticeHead +
                      ReplyAt(script, base + k).error.value, [])
  {
    var cmds := ConfigCommands(l);
    FailureHasError(script, base, |cmds|, k);
    ProfileHalts(config, st, l, script, base, env, k);
    HaltedMessage(cmds, script, base, k);
  }

  lemma HaltedMessage(cmds: seq<Command>, script: seq<Reply>, base: nat, k: nat)
    requires k < |cmds| && ReplyAt(script, base + k).error.Some?
    ensures Halted(cmds, script, base, k).exit ==
      Fatal("Failed to execute command [" + cmds[k].Text() + "]." + NoticeHead + ReplyAt(script, base + k).error.value, [])
  {
  }

  /** Once configured, a "trigger" that reaches its verdict sent between one
      and `TryLimit` triggers, fewer only once every area had a code; its
      verdict is "OK" exactly when every area holds a valid code, and the
      image is all pass rectangles exactly then. */
  lemma TriggeredChecked(config: Config, st: InputState, l: LuminaryConfig, script: seq<Reply>, at: nat, env: Env)
    requires env.download.None? && env.saveImage.None?
    ensures var s := TriggeredTranscript(config, st, l, script, at, env);
      var limit := TryLimit(config.triggerRetryCount);
      var areas := Expected(Layout(l), st.components,
        Protocol.Run(Blank(|Layout(l)|), Replies(script, at, limit)).codes);
      s.exit.Checked? &&
      (exists n :: 1 <= n <= limit && s.sent == Triggers(EffectiveBank(st.bank, config.bank), n) &&
        (n < limit ==> forall i :: 0 <= i < |areas| ==> Fulfilled(areas[i].readCode))) &&
      s.exit.verdict == VerdictLine(areas) &&
      (s.exit.verdict == "OK" <==> forall i :: 0 <= i < |areas| ==> areas[i].IsValid()) &&
      |s.exit.image| == |Layout(l)| &&
      ((forall i :: 0 <= i < |s.exit.image| ==> s.exit.image[i].pass) <==> s.exit.verdict == "OK")
  {
    var layout := Layout(l);
    var limit := TryLimit(config.triggerRetryCount);
    var batches := Replies(script, at, limit);
    var tries := Protocol.Run(Blank(|layout|), batches);
    var areas := Expected(layout, st.components, tries.codes);
    TriggeredParts(config, st, l, script, at, env, tries);
    RunBounds(Blank(|layout|), batches);
    if tries.attempts < limit {
      EarlyStopFulfilled(layout, st.components, batches);
    }
    FinishedChecked(areas, LastError(script, at + tries.attempts), env);
  }

  /** When the attempts stop before the last reply, every area has a code. */
  lemma EarlyStopFulfilled(layout: seq<(string, AreaConfig)>, cs: seq<Component>, batches: seq<seq<(string, string)>>)
    requires Protocol.Run(Blank(|layout|), batches).attempts < |batches|
    ensures var areas := Expected(layout, cs, Protocol.Run(Blank(|layout|), batches).codes);
      forall i :: 0 <= i < |areas| ==> Fulfilled(areas[i].readCode)
  {
    var tries := Protocol.Run(Blank(|layout|), batches);
    var areas := Expected(layout, cs, tries.codes);
    RunBounds(Blank(|layout|), batches);
    RunKeys(Blank(|layout|), batches);
    forall i | 0 <= i < |areas| ensures Fulfilled(areas[i].readCode) {
      FulfilledAt(layout, cs, tries.codes, i);
    }
  }

  lemma FulfilledAt(layout: seq<(string, AreaConfig)>, cs: seq<Component>, codes: map<string, string>, i: nat)
    requires AllFulfilled(codes) && codes.Keys == Blank(|layout|).Keys && i < |layout|
    ensures Fulfilled(Expected(layout, cs, codes)[i].readCode)
  {
    NumbersAt(|layout|, i);
    assert AreaNo(i + 1) in Numbers(|layout|);
    assert AreaNo(i + 1) in codes;
  }

  /** With the image downloaded and saved, "trigger" ends with its verdict:
      "OK" exactly when every area holds a valid code, the image being one
      rectangle per area, all drawn with the pass pen exactly then. */
  lemma FinishedChecked(values: seq<AreaSnapshot>, last: Option<string>, env: Env)
    requires env.download.None? && env.saveImage.None?
    ensures var e := Finished(values, last, env);
      e.Checked? && e.verdict == VerdictLine(values) &&
      (e.verdict == "OK" <==> forall i :: 0 <= i < |values| ==> values[i].IsValid()) &&
      |e.image| == |values| &&
      ((forall i :: 0 <= i < |e.image| ==> e.image[i].pass) <==> e.verdict == "OK")
  {
    VerdictMeaning(values);
    ImageAgreesWithVerdict(values);
  }

  /** A "trigger" sends commands only for a chosen profile, on a reader with its
      FTP ready, and then always the whole configuration or the part of it up
      to the first failing command. */
  lemma TriggerSendsConfiguration(config: Config, st: InputState, connected: bool, script: seq<Reply>,
                                  base: nat, env: Env)
    requires TriggerTranscript(config, st, connected, script, base, env).sent != []
    ensures Selected(config, st).Ok? && connected && env.ftpOpens && env.oldImages.None?
    ensures var cmds := ConfigCommands(Selected(config, st).value);
      var sent := TriggerTranscript(config, st, connected, script, base, env).sent;
      cmds <= sent || (sent <= cmds && FirstFailure(script, base, |cmds|) == Some(|sent| - 1))
  {
  }

  // ---------------------------------------------------------------------------
  // The "areas" operation

  /** What "areas" does: `Connect`, `ReadAreas`, `Disconnect`. */
  ghost function AreasTranscript(connected: bool, connectError: Option<string>, script: seq<Reply>,
                                 base: nat): Transcript
  {
    if !connected then Transcript(Fatal(ErrMessage(ConnectFailure, connectError), []), [])
    else
      var l := ListFrom(Answers(script, base, 250), 1);
      var sent := ReadCommands(1, l.sent);
      Transcript(ListingExit(l.lines, l.stop, LastError(script, base + |sent|)), sent)
  }

  /** How "areas" ends once the listing that printed `lines` stopped with
      `stop`; `last` is the reader's last error. */
  function ListingExit(lines: seq<string>, stop: Stop, last: Option<string>): Exit
  {
    match stop
    case Finished => Listed(lines)
    case Failed(m) => Fatal(ErrMessage(m, last), lines)
    case Crashed => Unhandled(lines)
  }

  /** The listing ends normally exactly when it finished; the lines printed
      are kept whatever the end; a failure is `Err` on the listing's message,
      and only a crash is an unhandled exception. */
  lemma ListingExitMeaning(lines: seq<string>, stop: Stop, last: Option<string>)
    ensures var e := ListingExit(lines, stop, last);
      (e.Listed? <==> stop.Finished?) && (e.Unhandled? <==> stop.Crashed?) &&
      (e.Fatal? <==> stop.Failed?) && e.stdout == lines
    ensures stop.Failed? ==> var e := ListingExit(lines, stop, last);
      stop.message <= e.message && (last.None? ==> e.message == stop.message)
  {
  }

  /** The "areas" branch of `Main`; `connectError` is what a failed `Connect` leaves. */
  method RunAreas(reader: Reader?, connectError: Option<string>) returns (exit: Exit)
    modifies reader
    ensures var s := AreasTranscript(reader != null, connectError, ScriptOf(reader), |old(SentOf(reader))|);
      exit == s.exit && SentOf(reader) == old(SentOf(reader)) + s.sent
  {
    if reader == null {
      return Fatal(ErrMessage(ConnectFailure, connectError), []);
    }
    exit := ListAreas(reader, |reader.sent|, connectError);
    assert ScriptOf(reader) == reader.script;
  }

  /** `ReadAreas` on a connected reader, and its error notice. */
  method ListAreas(reader: Reader, ghost base: nat, ghost connectError: Option<string>) returns (exit: Exit)
    requires base == |reader.sent|
    modifies reader
    ensures var s := AreasTranscript(true, connectError, reader.script, base);
      exit == s.exit && reader.sent == old(reader.sent) + s.sent
  {
    ghost var l := ListFrom(Answers(reader.script, base, 250), 1);
    ghost var sent := ReadCommands(1, l.sent);
    var lines, stop := ReadAreas(reader);
    assert |reader.sent| == base + |sent|;
    ghost var last := LastError(reader.script, base + |sent|);
    LastErrorAfterSending(reader, base + |sent|);
    exit := ListingExit(lines, stop, reader.LastErrorInfo());
  }

  /** "areas" reads at most 250 areas, one command each, and prints one line
      per area read except the one that ended the listing. */
  lemma AreasBounds(script: seq<Reply>, base: nat)
    ensures var s := AreasTranscript(true, None, script, base);
      |s.sent| <= 250 && s.sent == ReadCommands(1, |s.sent|) &&
      (s.exit.Listed? ==> |s.exit.stdout| == |s.sent| || |s.exit.stdout| + 1 == |s.sent|) &&
      (!s.exit.Listed? ==> |s.exit.stdout| + 1 == |s.sent|)
  {
    ListFromBounds(Answers(script, base, 250), 1);
  }

  // ---------------------------------------------------------------------------
  // Main

  const ConfigFailure: string := "Failed to read the config file: "

  /** What `Main` does with the arguments, the input files by path, the
      developer's input file, the outcome of reading the configuration, the
      reader `Connect` reaches and the other steps' outcomes. */
  ghost function MainTranscript(args: seq<string>, files: map<string, InputJson>, dev: Option<InputJson>,
                                config: Result<Config>, connected: bool, script: seq<Reply>, base: nat,
                                env: Env): Transcript
  {
    match InputRead(args, files, dev)
    case Err(m) => Transcript(Fatal(m, []), [])
    case Ok(st) =>
      match config
      case Err(m) => Transcript(Fatal(ConfigFailure + m, []), [])
      case Ok(c) =>
        if st.operation == "trigger" then TriggerTranscript(c, st, connected, script, base, env)
        else if st.operation == "areas" then AreasTranscript(connected, env.connectError, script, base)
        else Transcript(Fatal("Unknown operation [" + st.operation + "].", []), [])
  }

  /** `Main`. */
  method Execute(args: seq<string>, files: map<string, InputJson>, dev: Option<InputJson>,
                 config: Result<Config>, reader: Reader?, env: Env) returns (exit: Exit)
    modifies reader
    ensures var s := MainTranscript(args, files, dev, config, reader != null, ScriptOf(reader),
                                    |old(SentOf(reader))|, env);
      exit == s.exit && SentOf(reader) == old(SentOf(reader)) + s.sent
  {
    var input, err := ReadInput(args, files, dev);
    if err.Some? {
      return Fatal(err.value, []);
    }
    if config.Err? {
      return Fatal(ConfigFailure + config.message, []);
    }
    if input.operation == "trigger" {
      exit := RunTrigger(reader, config.value, input, env);
    } else if input.operation == "areas" {
      exit := RunAreas(reader, env.connectError);
    } else {
      exit := Fatal("Unknown operation [" + input.operation + "].", []);
    }
  }

  /** No command reaches the reader before the input and the configuration are
      read, the operation is known and, for "trigger", a profile is chosen and
      the FTP is ready. */
  lemma NothingSentUnlessReady(args: seq<string>, files: map<string, InputJson>, dev: Option<InputJson>,
                               config: Result<Config>, connected: bool, script: seq<Reply>, base: nat, env: Env)
    requires MainTranscript(args, files, dev, config, connected, script, base, env).sent != []
    ensures connected && InputRead(args, files, dev).Ok? && config.Ok?
    ensures var op := InputRead(args, files, dev).value.operation;
      op == "areas" ||
      (op == "trigger" && Selected(config.value, InputRead(args, files, dev).value).Ok? &&
       env.ftpOpens && env.oldImages.None?)
  {
  }

  /** An operation other than "trigger" and "areas" ends the run with its name
      in the message and without a word to the reader. */
  lemma UnknownOperation(args: seq<string>, files: map<string, InputJson>, dev: Option<InputJson>,
                         c: Config, connected: bool, script: seq<Reply>, base: nat, env: Env)
    requires InputRead(args, files, dev).Ok?
    requires var op := InputRead(args, files, dev).value.operation; op != "trigger" && op != "areas"
    ensures var s := MainTranscript(args, files, dev, Ok(c), connected, script, base, env);
      s.sent == [] && s.exit.Fatal? &&
      s.exit.message == "Unknown operation [" + InputRead(args, files, dev).value.operation + "]."
  {
  }

  /** When `Connect` fails, "trigger" with a chosen profile and "areas" both end
      with `Err("Failed to connect to the reader.")` before any command is sent;
      the message carries the error code the last `ReaderAccessor` kept, if any. */
  lemma ConnectFailureEnds(args: seq<string>, files: map<string, InputJson>, dev: Option<InputJson>,
                           c: Config, script: seq<Reply>, base: nat, env: Env)
    requires InputRead(args, files, dev).Ok?
    requires var st := InputRead(args, files, dev).value;
      st.operation == "areas" || (st.operation == "trigger" && Selected(c, st).Ok?)
    ensures var s := MainTranscript(args, files, dev, Ok(c), false, script, base, env);
      s.sent == [] && s.exit == Fatal(ErrMessage(ConnectFailure, env.connectError), [])
  {
  }
}

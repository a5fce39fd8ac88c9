# SR-5000 optics inspection, modelled in Dafny

`Sr5000Optics` is a command-line tool that checks a luminary with a Keyence
SR-5000 code reader. The "trigger" operation works in five steps:

1. It reads the expected components (`item/material/quantity`) from the
   arguments and from input files.
2. It picks the luminary profile whose LED and optics area counts match the
   component quantities, and checks every item of that profile against the
   components.
3. It numbers the profile's areas "001", "002", … (LED areas first, then optics
   areas) and defines them on the reader with `WD` commands.
4. It triggers the reader with `LON`/`LON,bb` until every area holds a code or
   the attempts run out.
5. It prints "OK" or "NOK", with one diagnostic line per invalid area.

The "areas" operation lists the areas the reader holds, asking for them with
`RD` commands.

This project models that core and proves what it promises. The reader is a
command channel, `Channel.Reader`. It has a script of replies, one per command
sent, each with an optional error code, and it keeps the log of the commands
sent. `LastErrorInfo` is the error code of the reply to the last command sent.

`Program.Cmd`'s fatal error becomes the `Step` outcome `Halt(fault)`. `Err` and
`Environment.Exit` become the `Program.Exit` value a run ends with. The
tool's static state becomes parameters and results:
- the input, an `Inputs.Input` object;
- the configuration, the `Settings.Config` value;
- the reader;
- the area table.

`Dictionary` enumeration order is kept: dictionaries are sequences of entries
in insertion order. The area table `Areas.AreaTable` is its key order plus a
map from key to `Areas.AreaResult` objects. `Trigger` updates the `ReadCode`
fields of those objects in place.

Modules, one per file:
- `Text`: `ToString`, `PadLeft`, `Split`, `Trim`, `StartsWith`, `Contains`,
  `int.Parse` and 32-bit wrap-around.
- `Outcomes`: `Option` and `Result`.
- `Settings`: `Config.cs`.
- `Inputs`: `Input.cs`.
- `Areas`: `AreaResult.cs` and the table of results.
- `Commands`: the wire commands and area numbers.
- `Channel`: the reader and `Cmd`.
- `Selection`: `ValidateInputConfig`.
- `AreaSetup`: `Configure` and `ConfigureAreas`.
- `Protocol`: `Trigger`.
- `Verdict`: `CheckResults` and the pens of `PrepareResultImage`.
- `AreaListing`: `ReadAreas`.
- `Program`: `Main`, `Err`, `ReadInput` and the two operations end to end.

Each imperative routine of the source is a Dafny method with the same loops.
It is proved against a specification function: `Selection.Selected`,
`AreaSetup.ConfigCommands`/`Channel.Outcome`, `Protocol.Run`,
`Verdict.Diagnostics`/`VerdictLine`, `AreaListing.ListFrom`,
`Program.MainTranscript`. Lemmas then prove what the source promises about
those functions.

Where the code and the written description disagree, the model follows the
code, with one exception named last:
- A profile item that has no component stops "trigger" before any command is
  sent. This is `Program.cs:175-178`, which runs before `ConfigureAreas`
  reads `input.Components[item]`.
- An answer to `RD` that is too short for `pos.Substring` throws an exception.
  The tool does not catch it, so the program ends with an unhandled
  exception: `Program.Exit.Unhandled`.
- One exception: a `TriggerRetryCount` near `int.MaxValue` overflows in the
  code. `Protocol.Trigger` and `Program.MainTranscript` use the intended bound
  `Protocol.TryLimit` from "## Findings"; the code's bound is
  `Protocol.TryLimit32`, whose effect `Protocol.TryLimit32Overflow` and
  `Protocol.TryLimit32Unbounded` show.

## Model

| member | source | states |
|---|---|---|
| Areas.AreaResult.constructor | AreaResult.cs:9-15 | the new result holds exactly the given area and component, its `ReadCode` is empty, and it is neither fulfilled nor valid |
| Areas.ValidIsFulfilled | AreaResult.cs:17-25 | a code that is valid for a material is always a fulfilled one |
| Areas.ValidityExamples | AreaResult.cs:17-25 | "ABC123" read for material "123" is valid; "ABC" and "" are not; "ABC" is fulfilled and "" is not |
| Areas.AreaTable.Codes | AreaResult.cs:9 | the read codes of the table, keyed by exactly the table's area numbers |
| Areas.AreaTable.Snapshots | Program.cs:485 | `Values` in insertion order: the i-th snapshot is that of the object under the i-th key |
| Areas.DistinctObjects | Program.cs:349 | in a valid table, different area numbers hold different objects, so setting one code leaves the others alone |
| Settings.DefaultConfig | Config.cs:13-27 | the initialisers: bank 0, prefixes "7" and "6", no connect or trigger retries, delays 2000 and 1000 ms |
| Settings.Field | Config.cs:85-88 | one coordinate of `ToCommand`: the decimal form, left-padded with '0' to at least four characters, never truncated |
| Settings.FieldDigits | Config.cs:85-88 | a coordinate in 0..9999 gives exactly four digits |
| Settings.ToCommandShape | Config.cs:83-91 | for coordinates in 0..9999, `ToCommand()` is 16 digits: X1, Y1, X2 and Y2 in that order, four each |
| Settings.LuminaryConfig.CountLeds | Config.cs:46-56 | the loop's count is the total length of all LED area lists |
| Settings.LuminaryConfig.CountOptics | Config.cs:58-68 | the loop's count is the total length of all optics area lists |
| Settings.Flatten | Config.cs:42-44 | the (item, area) pairs of a dictionary of area lists, in entry order and then list order, as many as its areas |
| Inputs.Lookup | Input.cs:18 | `ContainsKey`/indexer: the component stored under the item, and none exactly when no entry has that item |
| Inputs.PutLookup | Input.cs:143 | after `Components[c.Item] = c`, the item maps to `c` and every other item to what it mapped to before |
| Inputs.PutShape | Input.cs:143 | the store keeps items distinct; a new item is appended at the end, and a repeated one is replaced in its slot |
| Inputs.ComponentError | Input.cs:126-141 | no error exactly when the item is 1 to 4 digits, the material 1 to 12 digits (each optionally followed by one final '\n', which the regex's `$` also accepts) and the quantity positive; otherwise the message of the first check that fails |
| Inputs.InsertKeepsWellFormed | Input.cs:126-144 | a component that is added keeps the table to checked components, one per item |
| Inputs.InsertAllKeepsWellFormed | Input.cs:107-110 | adding a list of components one by one keeps the table well formed |
| Inputs.InsertAllAppends | Input.cs:107-110 | valid components with new, distinct items are appended in source order |
| Inputs.ParseComponentRoundTrip | Input.cs:113-124 | reading back `item/material/quantity` as `Component.ToString()` writes it gives the same component |
| Inputs.ParseComponentDefaults | Input.cs:118-120 | without a quantity part the quantity is 1; without a material part the material is "" |
| Inputs.ApplyArg | Input.cs:50-79 | an unknown key gives "Unknown argument: [k]."; only an operation key changes the operation |
| Inputs.ApplyArgMeaning | Input.cs:50-79 | `--config` of a missing file gives `MissingFile`, the `FileNotFoundException` wording with the path as given; `--b` succeeds exactly when `int.Parse` does and otherwise fails with its message; `--op` and `--l` always succeed; the operation is set only by `--op`, the bank only by a parsed `--b` or a file's non-negative bank, the luminary only by `--l` or a file's non-empty luminary, and the components only by `--bom` (stored as `AddComponent` stores them) or a file |
| Inputs.TrailingArgumentIgnored | Input.cs:45-48 | a trailing argument without a value changes nothing |
| Inputs.LastOperationWins | Input.cs:57-60 | the operation is the value of the last `--op`/`--operation` pair, or the one before the arguments |
| Inputs.LastBankWins | Input.cs:44-83 | the bank is the one set by the last pair that sets it (`--b` or a file with a bank that is not negative), or the one before the arguments |
| Inputs.LastLuminaryWins | Input.cs:44-83 | the luminary is the one set by the last pair that sets it (`--l` or a file with a luminary), or the one before the arguments |
| Inputs.ArgLoopKeepsWellFormed | Input.cs:41-83 | whatever the arguments, an accepted input holds only checked components, one per item |
| Inputs.Input.constructor | Input.cs:12-18 | a new input has operation "trigger", bank -1, luminary "" and no components |
| Inputs.Input.AddComponent | Input.cs:126-144 | the error is that of the checks; on success the component is stored under its item and nothing else changes; on failure nothing changes |
| Inputs.Input.AddComponentArg | Input.cs:113-124 | the string is parsed and then added; a parse failure changes nothing |
| Inputs.Input.ReadFromFile | Input.cs:97-110 | the new state is the merge: the file's bank if not negative, its luminary if not empty, then its components in order |
| Inputs.Input.Apply | Input.cs:50-79 | one turn of the `switch`: the new state or the error `ApplyArg` gives |
| Inputs.Input.CreateFromArgs | Input.cs:41-83 | a fresh input whose state is what `ParseArgs` gives, or the message of the first failure |
| Selection.CountedOnce | Program.cs:149-159 | no component is counted twice and none is lost: the LED and optics sums add up to the sum over items with either prefix, the LED prefix winning |
| Selection.FirstMatch | Program.cs:161-163 | `FirstOrDefault`: the first profile whose area counts match, and none exactly when no profile matches |
| Selection.ItemError | Program.cs:170-200 | no error exactly when every item is a component whose quantity equals the length of its area list |
| Selection.SelectedMeaning | Program.cs:139-200 | a profile is chosen exactly when the luminary is known, some profile matches the 32-bit counts and its items are covered; it is the first match |
| Selection.CheckItems | Program.cs:170-200 | one of the two item loops returns the message of the first item that is missing or has the wrong quantity |
| Selection.ValidateInputConfig | Program.cs:139-200 | the loops' outcome is `Selected`: the chosen profile or the message `Err` gets |
| Commands.AreaNoDigits | Program.cs:345 | an area number is the decimal number padded to three digits, reads back as the number, and is three characters up to 999 |
| Commands.AreaNoInjective | Program.cs:345 | different numbers get different area numbers |
| Commands.ReadOnText | Program.cs:376-377 | the trigger command is "LON" for a bank of 0 or less, otherwise "LON," and two digits that read back as the bank |
| Commands.BankDigits | Program.cs:377 | a bank from 1 to 99 is padded to exactly two digits that read back as the bank |
| Channel.FirstFailureMeaning | Program.cs:94-97 | the first failure is the first command whose reply carries an error; there is none exactly when no reply in the block carries one |
| Channel.FailureHasError | Program.cs:94-97 | the command found as the first failure lies in the block and its reply carries an error |
| Channel.FirstFailureSplit | Program.cs:94-97 | sending m commands and then n more fails where the first m fail, or else where the next n fail |
| Channel.LastErrorAfterSending | Program.cs:67 | after n commands, `LastErrorInfo` is the error code of the reply to the n-th |
| Channel.Reader.ExecCommand | Program.cs:92 | one command is appended to the log; the reply text and the new `LastErrorInfo` are those of the script at that position |
| Channel.OutcomeThen | Program.cs:85-100 | a run of commands that went through, followed by another run, is one run of both lists |
| Channel.OutcomeHalted | Program.cs:85-100 | a run that halted within a prefix of a list halted in the same way as a run of the whole list |
| Channel.OutcomeStop | Program.cs:94-97 | commands that went through followed by one that failed form a halted run of any list that starts with them |
| Channel.Cmd | Program.cs:85-100 | without a reader nothing is sent and the run halts "not connected"; otherwise the command is sent, and an error code halts the run with "Failed to execute command [cmd]." |
| AreaSetup.NumbersAt | Program.cs:336-351 | the i-th area number is `AreaNo(i + 1)` |
| AreaSetup.Layout | Program.cs:338-370 | the areas in numbering order: the LED areas then the optics areas, `CountLeds + CountOptics` of them |
| AreaSetup.FlattenItems | Program.cs:338-343 | every area of the layout belongs to an item of the profile |
| AreaSetup.AreaCommandsAppend | Program.cs:343-369 | the `WD` commands of two layouts in a row are those of the first, then those of the second numbered on from it |
| AreaSetup.NumberedMeaning | Program.cs:334-370 | a table built area by area is valid; its keys are "001" to K in order, and the i-th holds the i-th area of the layout and its item's component |
| AreaSetup.NextNumberIsNew | Program.cs:345-351 | the next number is not yet a key, so the assignment adds an entry and replaces none |
| AreaSetup.NumberedExtend | Program.cs:349 | recording one more area keeps the table numbered |
| AreaSetup.RecordArea | Program.cs:349 | the new entry holds the area and the item's component, is fresh, and keeps the table numbered and unread |
| AreaSetup.DefineNext | Program.cs:345-351 | one `WD` command is sent; an error code halts the run with that command; otherwise the area is recorded under the next number |
| AreaSetup.ConfigureItem | Program.cs:343-352 | the areas of one item are defined in list order; the run matches `Outcome` for their `WD` commands; the counter advances by their number |
| AreaSetup.GroupItem | Program.cs:338-353 | one entry of the LED (or optics) loop: its commands follow those of the entries before it |
| AreaSetup.ConfigureGroup | Program.cs:338-353 | one `foreach` over the LED (or optics) entries; the run matches `Outcome` for their `WD` commands |
| AreaSetup.ConfigureAreas | Program.cs:332-371 | the commands are the `WD` commands of the layout numbered from 1; when none fails, the table is that layout, numbered, unread and made of fresh objects |
| AreaSetup.SetCounts | Program.cs:322-329 | `WP,250,n`, `WP,253,n` and `WP,251,1` with n the number of areas, fatal on the first error |
| AreaSetup.Configure | Program.cs:312-330 | the commands are `DEFAULTDAREA,0`, one `WD` per area and the three `WP` commands, up to and including the first that fails; when none fails, the table is the numbered layout |
| Protocol.TryLimit | Program.cs:375 | the intended number of attempts: at least one, more than the retry count, and one more than a non-negative count |
| Protocol.TriggersAt | Program.cs:377-383 | every attempt sends the same trigger command |
| Protocol.ParsePieceNumbered | Program.cs:387-389 | a piece `code:areaNo` gives that area number and that code |
| Protocol.ParsePieceBare | Program.cs:389 | a piece without ':' is the code of area "000" |
| Protocol.ReplyPairsOfPieces | Program.cs:383-389 | a reply joined from pieces with '|' gives each piece's (area, code) pair, in reply order |
| Protocol.Store | Program.cs:391-394 | storing pairs only changes codes of known areas: the keys stay the same |
| Protocol.StoreUntouched | Program.cs:391-394 | an area that no pair names keeps its code |
| Protocol.StoreLastWins | Program.cs:391-394 | a known area that a pair names ends with the code of the last pair naming it, even an empty one |
| Protocol.FulfilledCodes | Program.cs:397 | `Values.All(r => r.IsFulfilled())` holds exactly when every code of the table is non-empty |
| Protocol.RunBounds | Program.cs:379-400 | the loop makes between one attempt and one per reply, and stops before the last only when every area has a code |
| Protocol.RunAttempted | Program.cs:379-400 | the codes left are those of storing the replies that were read, one after the other |
| Protocol.RunFirstFulfilled | Program.cs:397-400 | no attempt before the last one left every area with a code |
| Protocol.RunStopsAt | Program.cs:397-400 | the loop stops at the first attempt that leaves every area with a code |
| Protocol.SetCode | Program.cs:393 | the code of that one area is replaced and every other code stays |
| Protocol.StorePieces | Program.cs:385-395 | the `foreach` over the pieces stores them in order, as `Store` does |
| Protocol.StoreReply | Program.cs:383-395 | one reply is trimmed, split on '|', and its pieces stored |
| Protocol.Attempt | Program.cs:381-400 | one trigger is sent without `Cmd`, so an error code is not fatal; its reply is stored, and the result says whether every area has a code |
| Protocol.TriggerLoop | Program.cs:379-406 | the loop over `tryNo`: the codes it leaves and the triggers it sends are those of `Run` over the next `tryLimit` replies |
| Protocol.Trigger | Program.cs:373-407 | exactly `Run`'s number of trigger commands is sent, and the codes are those `Run` leaves |
| Verdict.InvalidMeaning | Program.cs:532 | the filter keeps exactly the invalid results |
| Verdict.InvalidAppend | Program.cs:532 | the filter keeps table order |
| Verdict.DiagnosticTellsReason | Program.cs:536-545 | a line ends with "code not found." exactly when nothing was read for its area; otherwise it names the invalid code |
| Verdict.DiagnosticsAt | Program.cs:536-546 | the i-th diagnostic is that of the i-th invalid result |
| Verdict.VerdictMeaning | Program.cs:534-553 | "OK" exactly when every area holds a valid code, and "NOK" otherwise |
| Verdict.LogDiagnostics | Program.cs:530-546 | the log is the heading and then one diagnostic per invalid result, in order |
| Verdict.CheckResults | Program.cs:528-554 | the log holds the diagnostics of exactly the invalid results, and the verdict line is `VerdictLine` |
| Verdict.StrokeCovers | Program.cs:487-493 | an area inside the image is drawn exactly over its rectangle |
| Verdict.ImageAgreesWithVerdict | Program.cs:485-494 | every rectangle is drawn with the pass pen exactly when the verdict is "OK" |
| AreaListing.Position | Program.cs:244-262 | coordinates are read only from a position of at least 16 characters |
| AreaListing.ListFromBounds | Program.cs:231-270 | one command is sent per answer read; one line is printed per answer except the one that ended the listing |
| AreaListing.ListLineAt | Program.cs:269 | the j-th line printed is the rectangle of the j-th answer, under area number `no + j` |
| AreaListing.ReadOne | Program.cs:233-262 | one `RD` command is sent, and the answer is the reading of the reply to it |
| AreaListing.ListNext | Program.cs:233-269 | one turn of the loop: one `RD` command, then either the end the whole listing has, or one more line printed and the rest still to come |
| AreaListing.ReadAreas | Program.cs:227-271 | the lines printed, how the loop ends and the `RD` commands sent are those of `ListFrom` on the answers to at most 250 commands |
| AreaListing.FieldRoundTrip | Program.cs:244 | each four-digit field of `ToCommand` parses back to its coordinate |
| AreaListing.PositionRoundTrip | Program.cs:244-267 | the position `ToCommand` writes reads back as the same area, except that an all-zero area ends the listing |
| AreaListing.ReplyFields | Program.cs:234-242 | a reply of three comma-separated fields, not an error, is trimmed to itself and split into the three |
| AreaListing.ReadEntryRoundTrip | Program.cs:234-267 | a reply whose third field is `ToCommand()` of an area reads as that area |
| Program.ErrMessageNamesError | Program.cs:65-70 | `Err`'s message is kept, and an error code, when there is one, follows " Last SR-5000 error: " at its end |
| Program.ReadInput | Program.cs:102-123 | a fresh input from the arguments and then the developer's file, or the failure under "Failed to read the input args: " |
| Program.InputFailureHeaded | Program.cs:119-122 | every failure to read the input carries that heading |
| Program.InputWithoutDevFile | Program.cs:110-117 | without a developer's file the input is exactly the arguments' |
| Program.UnreadCodes | Program.cs:334-351 | a table just configured maps every area number to the empty code |
| Program.SnapshotsExpected | Program.cs:485 | the table's values, whatever codes are stored, are the layout's areas with their components and codes |
| Program.RunKeys | Program.cs:391 | the attempts only change codes of known areas |
| Program.RunTrigger | Program.cs:39-51 | the "trigger" branch ends, and sends, what `TriggerTranscript` says, a failed `Connect` ending with `Err` and the error code the last `ReaderAccessor` kept |
| Program.RunProfile | Program.cs:41-50 | from `Connect` on, the run follows `ProfileTranscript`: a connection failure (with the error code the last `ReaderAccessor` kept), FTP and old-image failures first, then the configuration |
| Program.RunConfigured | Program.cs:44-50 | from `Configure` on, the run follows `ConfiguredTranscript` |
| Program.ProfileHalts | Program.cs:94-97 | a failing configuration command ends "trigger" on that command, after sending it and those before it |
| Program.ProfileGoesOn | Program.cs:44-45 | when the configuration goes through, its commands are followed by those of the trigger |
| Program.ProfileConfigured | Program.cs:41-44 | once connected, with the FTP open and no old image left, "trigger" goes on with `Configure` |
| Program.ProfileCommandFailure | Program.cs:94-97 | the failing command has an error code, the commands sent end with it, and the message is "Failed to execute command [cmd]." followed by the notice and the code |
| Program.HaltedMessage | Program.cs:65-70 | the message of a halted configuration, written out |
| Program.RunTriggered | Program.cs:45-50 | from `Trigger` on, the run follows `TriggeredTranscript` |
| Program.TriggeredParts | Program.cs:45-50 | after the configuration, the commands sent are `Run`'s triggers and the ending is that of the values they leave |
| Program.Finish | Program.cs:46-50 | a download or save failure is fatal; otherwise the verdict, the diagnostics and the rectangles |
| Program.TriggeredChecked | Program.cs:373-407 | with the image in hand, "trigger" sends between one and `TryLimit` triggers, fewer only once every area had a code; "OK" exactly when every area is valid, and then all rectangles pass |
| Program.EarlyStopFulfilled | Program.cs:397-400 | when the attempts stop before the last, every area of the table has a code |
| Program.FinishedChecked | Program.cs:528-554 | the ending is the verdict: "OK" exactly when every value is valid, one rectangle per value, all pass exactly then |
| Program.TriggerSendsConfiguration | Program.cs:39-45 | commands reach the reader only for a chosen profile with the FTP ready, and they start with all of the configuration or the part of it up to its first failure |
| Program.ListingExitMeaning | Program.cs:236-239 | "areas" ends normally exactly when the listing finished, with `Err` exactly when it failed (on the listing's message, plus the error code when there is one), and unhandled exactly when it crashed; the lines printed are kept in every case |
| Program.RunAreas | Program.cs:53-57 | the "areas" branch ends, and sends, what `AreasTranscript` says, a failed `Connect` ending with `Err` and the error code the last `ReaderAccessor` kept |
| Program.ListAreas | Program.cs:55 | `ReadAreas` on a connected reader, with the reader's error code added to a failure |
| Program.AreasBounds | Program.cs:231-270 | "areas" sends at most 250 `RD` commands numbered from 1, and prints one line per area except the one that ended the listing |
| Program.Execute | Program.cs:30-63 | `Main` ends, and sends to the reader, what `MainTranscript` says |
| Program.ConnectFailureEnds | Program.cs:203-224 | when `Connect` fails, "trigger" with a chosen profile and "areas" end with "Failed to connect to the reader." and the error code the last `ReaderAccessor` kept (Program.cs:67-70), sending nothing |
| Program.NothingSentUnlessReady | Program.cs:30-51 | no command reaches the reader before the input and the configuration are read; the operation must be known, and for "trigger" a profile must be chosen and the FTP ready |
| Program.UnknownOperation | Program.cs:59-61 | another operation ends with "Unknown operation [op]." and sends nothing |
| Text.PadLeft | Config.cs:85-88 | `PadLeft`: padding characters in front up to the width; the string itself is never truncated |
| Text.PaddedRoundTrip | Program.cs:345 | a zero-padded decimal number reads back as the number |
| Text.Split | Input.cs:115 | `Split`: the maximal pieces between delimiters, empty ones kept; joining them gives the string back |
| Text.SplitJoin | Program.cs:383 | splitting a join of pieces without the delimiter gives back the pieces |
| Text.TrimUntouched | Program.cs:234 | a string with no white space at either end is its own trim |
| Text.ParseInt32RoundTrip | Input.cs:64 | `int.Parse(i.ToString()) == i` for every 32-bit integer |
| Text.ParseTrailingNuls | Input.cs:64 | `int.Parse` accepts U+0000 characters after the number ("12\0\0" is 12), but not before trailing white space |
| Text.Wrap32Add | Program.cs:153-157 | wrapping after every addition is the same as wrapping once at the end, so the loops' unchecked sums are the wrapped exact sums |
| Protocol.TryLimit32 | Program.cs:375 | the bound as the code computes it, in unchecked 32-bit `int` |
| Protocol.TryLimit32Agrees | Program.cs:375 | below `int.MaxValue`, the computed bound is the intended one |
| Protocol.TryLimit32Overflow | Program.cs:375-379 | with retry count `int.MaxValue` the bound is `int.MinValue`, so the loop makes no attempt |
| Protocol.TryLimit32Unbounded | Program.cs:375-379 | with retry count `int.MaxValue - 1`, every 32-bit `tryNo`, and what `++tryNo` wraps it to, passes the loop test |

## Left out

- The Keyence SDK transport is not modelled: `new ReaderAccessor`, `Connect()`, `ExecCommand` internals, `Disconnect()`. The reader is its script of replies. `Connect`'s result is a parameter: a connected reader, or none together with `Env.connectError`, the `LastErrorInfo` of the last `ReaderAccessor` after the failed attempts (`None` when it kept no error, or when no attempt was made).
- `Connect`'s retry loop and its sleeps run on the SDK and the clock, so they are left out. `Connect` has the same 32-bit bound as `Trigger`, and that finding carries over.
- `OpenFtp`, `DeleteOldImages` (`File.Delete`, `GetFileList`, `DeleteFile`) and `DownloadNewImage` are file and network I/O. Each one's outcome is a field of `Program.Env`. These calls are taken not to change the reader's `LastErrorInfo`.
- `CloseFtp` and `Disconnect` inside `Err` and at the end of "trigger" send no commands through `ExecCommand`, so they are left out. `Environment.Exit(1)` is the `Fatal` ending.
- `PrepareResultImage` is reduced to one rectangle per area, with its pen (pass exactly when the area is valid) and its x, y, width and height. The bitmap drawing and the file deletes and moves are left out. A failure of the moves is the `saveImage` message of `Env`.
- `Thread.Sleep` in `Trigger` (also after the final failed attempt) and in `Connect` is timing only.
- `Log` lines on standard error are left out, except the lines `CheckResults` logs. Console output is returned as line sequences.
- `Config.CreateFromFile` and JSON decoding are left out. The configuration is given as a `Result<Config>`, input files as decoded `InputJson` values by path. `InputJson` has every field present: a file that decodes to nulls (`"components": null`, a component without `item` or `material`) is outside the model, where the source throws `NullReferenceException` at Input.cs:105 or `ArgumentNullException` from `Regex.IsMatch` at Input.cs:128 and 133. Whether the developer's `input.dev.json` exists, and its content, is a parameter.
- `Text.ParseInt32` gives one message, the format one, for both format and overflow failures of `int.Parse`, because `int.Parse` overflow messages are not part of this model. The message is that of .NET before version 8 ("Input string was not in a correct format."); .NET 8 and later write "The input string '<value>' was not in a correct format.".
- `Inputs.MissingFile` uses the `FileNotFoundException` wording with the path as the argument gave it. `File.ReadAllText` reports the full path instead, a missing directory gives `DirectoryNotFoundException` ("Could not find a part of the path '…'."), and an empty or invalid path gives `ArgumentException`; the file system is not part of this model.
- `Protocol.Trigger` and `Program.MainTranscript` use the intended bound `Protocol.TryLimit`. With `TriggerRetryCount = int.MaxValue` the code sends no `LON` where the model sends at least one, and with `int.MaxValue - 1` the code's loop ends only through its `break` where the model stops after `int.MaxValue` attempts (see "## Findings").
- `Text.ParseInt32` takes the sign symbols to be '-' and '+', those of the invariant culture. `int.Parse` takes them from the current culture's `NumberFormatInfo`, and the culture is not part of this model.
- `Text.StartsWith` compares character by character. The one-argument `string.StartsWith(string)` of Program.cs:151, 155 and 236 compares with the current culture, under which ignorable characters such as U+00AD can make a prefix match where the characters differ; culture comparison is not part of this model.
- `Text.IsWhiteSpace` covers the Unicode white space characters of `char.IsWhiteSpace` by code point. There is no culture-specific behaviour.
- `Program.ComponentOf`'s fallback for an item with no component is never reached. `ValidateInputConfig` rejects such profiles before `ConfigureAreas` runs.
- `Inputs.Component.ToString` and `Settings.AreaConfig.ToString` use `Text.IntToString`, the invariant-culture decimal form.
- `KeyenceConfig` is unused by the tool.

## Findings

| source | as written | input that shows it | evidently intended | confidence | as-written member | corrected member |
|---|---|---|---|---|---|---|
| Program.cs:375-379 | `tryLimit = 1 + Math.Max(0, TriggerRetryCount)` in unchecked `int`, with the loop test `tryNo <= tryLimit` and `++tryNo` | `TriggerRetryCount = int.MaxValue` gives `tryLimit = int.MinValue`, so there are no attempts and every area is "code not found". `TriggerRetryCount = int.MaxValue - 1` gives `tryLimit = int.MaxValue`, which every `tryNo` passes, so the loop ends only when every area has a code | `1 + max(0, n)` attempts, at least one, and a loop that always ends | low (needs an extreme configuration value); not executed | Protocol.TryLimit32Overflow | Protocol.TryLimit |

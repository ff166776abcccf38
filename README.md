# Daytona SDK `Process`: command encoding, output artifacts and log following

A Dafny model of the core of `daytona_sdk/process.py`, the class through which the
Python SDK runs commands in a sandbox:

- **Command encoding** (`CommandEncoder`, `Exec`). `Process.exec` never sends the
  user's command as it is. It base64-encodes the UTF-8 bytes of the command and of
  every environment value, and it wraps them in a `sh -c "..."` line that decodes
  them on the remote side with `base64 -d`. The model writes UTF-8 (`Utf8`) and
  base64 as in section 4 of RFC 4648 (`Base64`) out in full. It proves that the
  quoted payload contains no character that could end the quoting. It also proves
  that the line stays one intact `sh -c "..."` word and that the remote shell
  decodes exactly the original command, as long as every environment key is a
  shell name. Keys are not encoded and not checked: a key holding `"` breaks the
  line. Values are exported through a command substitution `$(...)`, which drops
  their trailing newlines: `env={"K": "a\n"}` exports `K` as `a`.
- **Artifact extraction** (`ArtifactExtractor`). `Process._parse_output` splits the
  printed lines into plain output and chart artifacts. Lines that start with
  `dtn_artifact_k39fd2:` are markers. Each carries a JSON object whose `"type"`
  says what it is. The loop is a method proved against a specification (`Extract`),
  and that specification is characterised line by line: the output text, the charts
  in order, and the first failing marker.
- **Log following** (`LogFollower`). This is the loop of
  `Process.get_session_command_logs_async`. It races an outstanding stream read
  against a 2-second timer, hands each chunk to `on_logs` once, in order, decoded as
  UTF-8, and stops at the end of the stream or at the second status poll that
  reports an exit code. Each round is given by a trace entry that says which tasks
  are in the `done` set of `asyncio.wait` and what they returned.
- **Deprecated flag migration** (`SessionRequest`). This is
  `SessionExecuteRequest.__handle_deprecated_var_async`, which moves a truthy
  `var_async` into `run_async` in place.

Python's `str.splitlines()`, `str.strip()`, `str.replace(..., 1)` and the truth test
are modelled with Python's own character sets and rules (`Builtins`, `PyValues`).

Two behaviours of the log loop are worth stating on their own:

- The exit counter (lines 449-451 of `process.py`) is never reset. The two exit
  observations that end the loop therefore need not come from consecutive polls.
- A status poll that raises (line 447) ends the loop with that error. It is not
  retried.

## Model

Source paths are relative to the repository root.

| member | source | states |
|---|---|---|
| CommandEncoder.PayloadIsInert | packages/python/src/daytona_sdk/process.py:142-143 | every character of the base64 payload of any text is in `A-Z a-z 0-9 + / =`, so it is never a quote, `$`, backtick, backslash or newline |
| CommandEncoder.PayloadDecodes | packages/python/src/daytona_sdk/process.py:142-143 | `base64 -d` recovers the command's UTF-8 bytes from the payload, and those bytes decode to the command |
| CommandEncoder.RemoteCommandIsOriginal | packages/python/src/daytona_sdk/process.py:142-157 | for every command and every environment whose keys are shell names, the line is one intact `sh -c "..."` word (no `"` inside it) and the command the remote shell decodes from it and runs is exactly the original |
| CommandEncoder.EnvPrefixHasNoDoubleQuote | packages/python/src/daytona_sdk/process.py:145-154 | with shell-name keys, the export statements and their separators hold no `"`, whatever the values hold |
| CommandEncoder.ExportedValueReadBack | packages/python/src/daytona_sdk/process.py:149 | an export statement whose key is a shell name, read as an `export NAME=$(...)` assignment (no field splitting, no pathname expansion), gives that key the value without its trailing newlines; the model gives no reading (`None`) for a value holding a NUL |
| CommandEncoder.ExportedValueIsOriginal | packages/python/src/daytona_sdk/process.py:149 | read as an assignment, an export statement whose key is a shell name gives exactly that key exactly its value, when the value neither ends with a newline nor holds a NUL |
| CommandEncoder.TrailingNewlineLost | packages/python/src/daytona_sdk/process.py:149 | the value `"a\n"` is exported as `"a"` |
| CommandEncoder.DropTrailingNewlinesRemovesNewlines | packages/python/src/daytona_sdk/process.py:149 | what command substitution keeps is a prefix of the output that does not end with a newline, and all it removes are newlines |
| CommandEncoder.OnlyNamesReadBack | packages/python/src/daytona_sdk/process.py:149 | an export statement whose key is not a shell name never reads back as that key and value |
| CommandEncoder.ShapeWithoutEnv | packages/python/src/daytona_sdk/process.py:142-157 | with no environment or an empty one, the line is `sh -c "echo '<payload>'` followed by the base64-decode-and-run pipe and the closing quote |
| CommandEncoder.ShapeWithEnv | packages/python/src/daytona_sdk/process.py:145-157 | with a non-empty environment, the line is one export per item in the dict's order, joined by `;`, then `;`, a space and the decode-and-run template |
| CommandEncoder.KeyIsNotEncoded | packages/python/src/daytona_sdk/process.py:149 | for a one-item environment, its single key is copied into the line character for character (it is not encoded), at offset 14 |
| CommandEncoder.QuoteInKeyBreaksLine | packages/python/src/daytona_sdk/process.py:149-157 | a one-item environment whose key holds `"` closes the `sh -c` word early, so the line no longer runs the command |
| Base64.DecodeEncode | packages/python/src/daytona_sdk/process.py:142-143 | decoding what `b64encode` wrote gives the bytes back |
| Base64.EncodedAlphabet | packages/python/src/daytona_sdk/process.py:142 | `b64encode` writes only alphabet characters and `=` |
| Utf8.DecodeEncode | packages/python/src/daytona_sdk/process.py:142 | strict UTF-8 decoding of `str.encode()` gives the text back |
| Builtins.FindFirst | packages/python/src/daytona_sdk/process.py:93 | the index found is an occurrence and no earlier index is one; `None` only when there is no occurrence |
| Builtins.ReplaceLeadingPrefix | packages/python/src/daytona_sdk/process.py:93 | replacing the first occurrence of a leading prefix with nothing drops exactly that prefix |
| Builtins.TrimStartRemovesLeadingSpace | packages/python/src/daytona_sdk/process.py:93 | `lstrip` leaves a suffix that does not start with white space, and it removes only white space |
| Builtins.TrimEndRemovesTrailingSpace | packages/python/src/daytona_sdk/process.py:93 | `rstrip` leaves a prefix that does not end with white space, and it removes only white space |
| Builtins.StripTrims | packages/python/src/daytona_sdk/process.py:93 | `strip` leaves the slice `s[i..j]` where `i` is the length of the leading white space and `j` is where the trailing white space starts: all it cuts off is white space, and what is left neither starts nor ends with it |
| Builtins.SplitLines | packages/python/src/daytona_sdk/process.py:167 | no line that `splitlines` returns contains a line boundary |
| Builtins.SplitJoinLines | packages/python/src/daytona_sdk/process.py:167 | splitting lines that were each followed by `"\n"` gives the lines back |
| Builtins.JoinSplitLines | packages/python/src/daytona_sdk/process.py:86-90 | for text whose only line breaks are `"\n"`, joining its `splitlines` with `"\n"` after each line gives the text back, plus a final `"\n"` when it had none |
| ArtifactExtractor.ChartArtifact | packages/python/src/daytona_sdk/process.py:99-100 | a chart marker that does not raise always contributes a chart |
| ArtifactExtractor.ParseOutput | packages/python/src/daytona_sdk/process.py:86-102 | the loop returns exactly the specification `Extract`: the scan of the lines' classifications, stopping at the first error |
| ArtifactExtractor.ScanCharacterized | packages/python/src/daytona_sdk/process.py:86-102 | the scan succeeds exactly when no line fails; its stdout is then every plain line followed by `"\n"`, and its charts every parsed chart, both in order |
| ArtifactExtractor.ScanFailsAtFirst | packages/python/src/daytona_sdk/process.py:87-95 | a failing scan fails with the error of the first failing line |
| ArtifactExtractor.ClassifyType | packages/python/src/daytona_sdk/process.py:95-100 | a loaded object that does not raise yields a chart exactly when its `"type"` is `"chart"` |
| ArtifactExtractor.MarkerChartType | packages/python/src/daytona_sdk/process.py:93-100 | a marker line that does not raise yields a chart exactly when its JSON declares `"type": "chart"` |
| ArtifactExtractor.KindOfLine | packages/python/src/daytona_sdk/process.py:88-100 | a line is output exactly when it lacks the prefix; it fails exactly when it is a marker that raises; it is a chart exactly when it is a valid `"chart"` marker |
| ArtifactExtractor.MarkerOutcomes | packages/python/src/daytona_sdk/process.py:93-100 | invalid JSON, a non-object, or a missing `"type"` fail; other types are dropped; a chart fails unless its `"value"` (default `{}`) is an object that `parse_chart` accepts |
| ArtifactExtractor.ExtractCharacterized | packages/python/src/daytona_sdk/process.py:86-102 | `_parse_output` succeeds exactly when every marker line is valid; stdout is then each non-marker line plus `"\n"` in order; charts are one per chart marker in order, each what `parse_chart` made of that line |
| ArtifactExtractor.ExtractFailsAtFirstInvalid | packages/python/src/daytona_sdk/process.py:87-100 | a failure carries the error of the first invalid marker line, and every marker before it is valid |
| ArtifactExtractor.NoMarkerLines | packages/python/src/daytona_sdk/process.py:88-90 | output with no marker line comes back one `"\n"`-terminated line at a time, with no chart |
| ArtifactExtractor.MarkerJsonOf | packages/python/src/daytona_sdk/process.py:93 | the prefix followed by a payload is a marker, and it hands the stripped payload to `json.loads` |
| ArtifactExtractor.ChartMarkerKind | packages/python/src/daytona_sdk/process.py:93-100 | a marker holding `{"type": "chart", "value": {...}}` that `parse_chart` accepts becomes that chart |
| ArtifactExtractor.OneChartBetweenTwoLines | packages/python/src/daytona_sdk/process.py:86-102 | `"a"`, a chart marker, `"b"` give stdout `"a\nb\n"` and exactly that one chart |
| Exec.WorkingDirectory | packages/python/src/daytona_sdk/process.py:159 | an absent or empty `cwd` means the root directory; any other `cwd` is used as given |
| Exec.Exec | packages/python/src/daytona_sdk/process.py:142-176 | a failed call is an error; unparsable output is an error; otherwise the result has the response's exit code, the extracted stdout as `result`, and the extracted artifacts |
| Exec.RequestRunsCommand | packages/python/src/daytona_sdk/process.py:142-160 | when every environment key is a shell name, the request `exec` sends makes the sandbox run exactly the given command |
| Exec.PlainOutputPassesThrough | packages/python/src/daytona_sdk/process.py:167-173 | printed text with `"\n"` line breaks and no marker comes back as it was, plus a final `"\n"` when missing, with no charts |
| LogFollower.FollowLogs | packages/python/src/daytona_sdk/process.py:426-454 | the loop ends in the state `Run` gives from the initial state and takes the rounds `Consumed` counts |
| LogFollower.RunDelivers | packages/python/src/daytona_sdk/process.py:437-445 | `on_logs` receives each chunk that was read exactly once, in order, decoded; the loop stops at the first chunk that does not decode, which is not delivered |
| LogFollower.RunCountsExits | packages/python/src/daytona_sdk/process.py:446-451 | the exit counter rises by exactly the number of polls that saw an exit code; it is never reset |
| LogFollower.StepPreservesInv | packages/python/src/daytona_sdk/process.py:428-454 | each turn keeps at most one read outstanding and the counter at most 2; it reaches 2, and the read is cancelled, exactly when the loop stops for the second exit code |
| LogFollower.FollowInvariant | packages/python/src/daytona_sdk/process.py:426-454 | from the start, the end state satisfies that invariant, and its counter equals the exit polls taken |
| LogFollower.ReadWinsTie | packages/python/src/daytona_sdk/process.py:437-446 | when the read is in the `done` set the turn is the same whether or not the timer is too, and whatever a poll would report: no poll happens, and no read is left outstanding |
| LogFollower.NothingDoneWaitsAgain | packages/python/src/daytona_sdk/process.py:428-446 | when neither task is done (the fall-through of the `if`/`elif`, which `asyncio.wait` never produces) the loop goes round again with a read outstanding, polling, delivering and counting nothing |
| LogFollower.EndOfStreamStops | packages/python/src/daytona_sdk/process.py:442-443 | the end of the stream stops the loop in that round, delivering and polling nothing more |
| LogFollower.RunningPollKeepsFollowing | packages/python/src/daytona_sdk/process.py:429-449 | a poll without an exit code keeps the loop following with a read outstanding (the one started in this turn if none was), counts one poll, and leaves the exit counter and the delivered text unchanged |
| LogFollower.StepContinues | packages/python/src/daytona_sdk/process.py:437-454 | a round keeps the loop going exactly when it is a decodable chunk, a poll with no exit code, or the first exit poll; the counter rises only on exit polls |
| LogFollower.KeepsFollowing | packages/python/src/daytona_sdk/process.py:428-454 | while every round continues, the loop takes them all and keeps following |
| LogFollower.StopsAtFirstStop | packages/python/src/daytona_sdk/process.py:428-454 | the loop stops at the first round that does not continue, after exactly the rounds up to it |
| LogFollower.StopsAtSecondExit | packages/python/src/daytona_sdk/process.py:449-454 | the second exit poll ends the loop at once, with the counter at 2 and the outstanding read cancelled |
| LogFollower.SplitCharacterFails | packages/python/src/daytona_sdk/process.py:445 | `é` split across the chunks `C3` and `A9` makes the first decode raise: the loop fails and delivers nothing, although the two chunks together decode |
| SessionRequest.RequestValues.HandleDeprecatedVarAsync | packages/python/src/daytona_sdk/process.py:35-43 | returns the same dict, now `Migrated`, and warns exactly when `var_async` is truthy |
| SessionRequest.MigrationCases | packages/python/src/daytona_sdk/process.py:35-43 | a missing or falsy `var_async` changes nothing; a truthy one warns and replaces a missing or falsy `run_async`, leaving no `var_async`; next to a truthy `run_async` nothing changes |
| SessionRequest.OtherKeysUnchanged | packages/python/src/daytona_sdk/process.py:41-42 | keys other than the two flags are untouched |
| SessionRequest.EffectiveRunAsync | packages/python/src/daytona_sdk/process.py:35-42 | afterwards `run_async` is truthy exactly when either flag was before, and a truthy `var_async` never stays next to a falsy `run_async` |
| SessionRequest.MigrationIdempotent | packages/python/src/daytona_sdk/process.py:35-43 | running the validator again changes nothing; it warns again only when both flags were truthy |

## Left out

- Characters are Unicode scalar values. A Python `str` holding a lone surrogate, for which `str.encode()` raises, cannot be represented.
- The HTTP client, `asyncio` and the 2-second timer are replaced by parameters. `execute_command` is a function from request to response, or `None` when it raises. The log loop is driven by a trace of the `done` sets of `asyncio.wait`; what `get_session_command` would report is part of each trace entry. Cancelling the timer and closing the stream (`async with`) are not modelled.
- `json.loads` and `parse_chart` are parameters that return `None` where they raise. The chart type is left abstract. `data.pop("type")` is modelled by reading `"type"`; the popped dict only matters to `parse_chart`, which never receives it.
- The remote shell is modelled only as far as the double quotes of the `sh -c` word, the `export NAME=` form read as an assignment, the single quotes around a payload and `base64 -d`. Other shell semantics are not modelled, including whether a shell on the sandbox side expands `$(...)` inside the double quotes before `sh -c` runs, and what a key that breaks the quoting then makes the shell do.
- CommandEncoder.RemoteCommandIsOriginal: promised only when every environment key is a shell name. `Process.exec` neither encodes nor checks keys, and `CommandEncoder.QuoteInKeyBreaksLine` shows that a key holding `"` ends the `sh -c` word early. It also states only which command the line decodes, not that the decoding runs. The exports take effect before `base64 -d | sh`, so an exported `PATH` (a valid shell name) can keep `base64` or `sh` from being found. An earlier `PATH` export can also break the `base64 -d` of later exports. In a shell that splits the arguments of `export` into fields (see the next line), a value such as `x PATH=/nowhere` does the same. The model assumes both commands are found. What `sh` does with a NUL in the decoded script is not modelled either.
- CommandEncoder.ExportedValueIsOriginal: promised only for a key that is a shell name, for the same reason, and only for a value that neither ends with a newline nor holds a NUL. `CommandEncoder.OnlyNamesReadBack` shows that no other key reads back as itself. `CommandEncoder.ExportedValueReadBack` states what the other values become. The model gives no reading (`None`) for a value holding a NUL, because shells differ on it (bash drops the NUL with a warning and still assigns). The lemma also assumes that the remote `sh` expands `NAME=$(...)` after `export` as an assignment, with no field splitting and no pathname expansion, as bash, dash 0.5.11 and later, and POSIX.1-2024 do. A shell that treats the arguments of `export` as ordinary words, as POSIX.1-2017 allowed and dash up to 0.5.10 does, splits the value at IFS characters and expands `*` and `?` in it. With such a shell, `{"K": "a b"}` exports `K` as `a` and also exports `b`.
- CommandEncoder.ExportedValueReadBack: assumes the same assignment reading of `export NAME=$(...)`. Field splitting and pathname expansion of the value by shells that treat `export`'s arguments as ordinary words are not modelled.
- Exec.RequestRunsCommand: promised only when every environment key is a shell name, and with the same proviso about an exported `PATH` as `CommandEncoder.RemoteCommandIsOriginal`.
- An `on_logs` callback that raises (line 445 of `process.py`) ends the loop with that exception. In the model, delivering a decoded chunk cannot fail.
- Dict insertion order: the environment is a sequence of items in order. The validator's dict is a `map`, so the position of a re-inserted `run_async` is not modelled.
- `intercept_errors` and its message prefixes are not modelled. Errors are datatype values.
- `additional_properties`, `model_construct`, the workspace id and `get_root_dir()` are not modelled. The root directory is passed in as the value that `get_root_dir()` returns.
- `warnings.warn` is modelled as the returned flag `warned`.
- `code_run`, the session management calls and the other `toolbox_api` forwarders of `Process` are not modelled. They only forward their arguments.
- LogFollower.FollowLogs: a trace that runs out before the loop stops leaves it still following. Rounds that were never taken say nothing about the real stream.

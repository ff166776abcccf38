/**
  `Process.exec`: builds the request from the encoded command line, sends it, and
  splits what the command printed into output and chart artifacts.

  The toolbox call is a parameter (`api`), since the HTTP client is not modelled:
  it answers a request with the command's exit code and printed text, or `None`
  when the call raises. `get_root_dir()` is given as the value it returns.
 */
module Exec {
  import opened Wrappers
  import opened Builtins
  import opened PyValues
  import CommandEncoder
  import opened ArtifactExtractor

  /** `ExecuteRequest(command=..., cwd=..., timeout=...)` */
  datatype ExecuteRequest = ExecuteRequest(command: string, cwd: string, timeout: Option<int>)

  /** What the toolbox answers: the exit code and the text the command printed. */
  datatype ApiResponse = ApiResponse(exitCode: int, result: string)

  /** `ExecuteResponse(exit_code, result, artifacts)` */
  datatype ExecuteResponse<C> = ExecuteResponse(exitCode: int, result: string, artifacts: Artifacts<C>)

  datatype ExecError =
    | RequestFailed                      // execute_command raised
    | OutputInvalid(error: ExtractError) // _parse_output raised

  /** `cwd or self._get_root_dir()`: an absent or empty `cwd` means the root directory. */
  function WorkingDirectory(cwd: Option<string>, rootDir: string): (dir: string)
    ensures cwd.Some? && cwd.value != [] ==> dir == cwd.value
    ensures cwd.None? || cwd.value == [] ==> dir == rootDir
  {
    if cwd.Some? && cwd.value != [] then cwd.value else rootDir
  }

  /** The request `exec` sends. */
  function BuildRequest(command: string, cwd: Option<string>, env: Option<CommandEncoder.Env>,
                        timeout: Option<int>, rootDir: string): ExecuteRequest
  {
    ExecuteRequest(CommandEncoder.ShellCommand(command, env), WorkingDirectory(cwd, rootDir), timeout)
  }

  /** `Process.exec(command, cwd, env, timeout)` */
  method Exec<C>(command: string, cwd: Option<string>, env: Option<CommandEncoder.Env>, timeout: Option<int>,
                 rootDir: string, api: ExecuteRequest -> Option<ApiResponse>,
                 loads: string -> Option<Value>, parseChart: map<string, Value> -> Option<C>)
    returns (r: Result<ExecuteResponse<C>, ExecError>)
    ensures var request := BuildRequest(command, cwd, env, timeout, rootDir);
      match api(request)
      case None => r == Err(RequestFailed)
      case Some(response) =>
        match Extract(SplitLines(response.result), loads, parseChart)
        case Err(e) => r == Err(OutputInvalid(e))
        case Ok(artifacts) =>
          && r.Ok?
          && r.value.exitCode == response.exitCode
          && r.value.result == artifacts.stdout
          && r.value.artifacts == artifacts
  {
    var request := BuildRequest(command, cwd, env, timeout, rootDir);
    var response := api(request);
    if response.None? {
      return Err(RequestFailed);
    }
    var parsed := ParseOutput(SplitLines(response.value.result), loads, parseChart);
    match parsed
    case Err(e) =>
      r := Err(OutputInvalid(e));
    case Ok(artifacts) =>
      r := Ok(ExecuteResponse(response.value.exitCode, artifacts.stdout, artifacts));
  }

  /**
    With every environment key a shell name, the command the sandbox decodes from the
    request is exactly the given one.
   */
  lemma RequestRunsCommand(command: string, cwd: Option<string>, env: Option<CommandEncoder.Env>,
                           timeout: Option<int>, rootDir: string)
    requires CommandEncoder.NamesOnly(env)
    ensures CommandEncoder.RemoteCommand(BuildRequest(command, cwd, env, timeout, rootDir).command) == Some(command)
  {
    CommandEncoder.RemoteCommandIsOriginal(command, env);
  }

  /**
    Output without marker lines, whose only line breaks are `"\n"`, comes back as it
    was printed, with a final `"\n"` added when the last line had none, and no chart.
   */
  lemma PlainOutputPassesThrough<C>(text: string, loads: string -> Option<Value>, parseChart: map<string, Value> -> Option<C>)
    requires OnlyNewlineBreaks(text)
    requires forall i :: 0 <= i < |SplitLines(text)| ==> !IsMarker(SplitLines(text)[i])
    ensures Extract(SplitLines(text), loads, parseChart) == Ok(Artifacts(text + MissingNewline(text), []))
  {
    NoMarkerLines(SplitLines(text), loads, parseChart);
    JoinSplitLines(text);
  }
}

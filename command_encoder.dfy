/**
  The command line `Process.exec` sends to the sandbox. The user's command and
  every environment value travel base64-encoded inside single quotes, so that no
  character they hold can reach a shell unquoted:

      sh -c "export K1=$(echo '<b64 v1>' | base64 -d);...;export Kn=$(echo '<b64 vn>' | base64 -d); echo '<b64 command>' | base64 -d | sh"

  and, with no environment, `sh -c "echo '<b64 command>' | base64 -d | sh"`.
 */
module CommandEncoder {
  import opened Wrappers
  import opened Builtins
  import Utf8
  import Base64

  /** A Python `Dict[str, str]`: its (key, value) items in insertion order. */
  type Env = seq<(string, string)>

  /** `base64.b64encode(text.encode()).decode()`: what goes between the single quotes. */
  function Payload(text: string): string {
    Base64.Encode(Utf8.Encode(text))
  }

  /** `echo '<payload>' | base64 -d | sh` */
  function DecodeAndRun(command: string): string {
    "echo '" + Payload(command) + RUN_SUFFIX
  }

  const RUN_SUFFIX := "' | base64 -d | sh"

  const EXPORT_PREFIX := "export "

  const ASSIGN_OPEN := "=$(echo '"

  const EXPORT_SUFFIX := "' | base64 -d)"

  const SH_OPEN := "sh -c \""

  /** `export <key>=$(echo '<payload of value>' | base64 -d)`; the key goes in as it is. */
  function ExportStatement(key: string, value: string): string {
    EXPORT_PREFIX + key + ASSIGN_OPEN + Payload(value) + EXPORT_SUFFIX
  }

  /** The list comprehension over `env.items()`. */
  function ExportStatements(env: Env): (stmts: seq<string>)
    ensures |stmts| == |env|
    ensures forall i :: 0 <= i < |env| ==> stmts[i] == ExportStatement(env[i].0, env[i].1)
  {
    seq(|env|, i requires 0 <= i < |env| => ExportStatement(env[i].0, env[i].1))
  }

  /** `";".join(statements) + ";"` */
  function SafeEnvExports(env: Env): string {
    Join(";", ExportStatements(env)) + ";"
  }

  /** `f"{safe_env_exports} "` when `env` is given and not empty, and nothing otherwise. */
  function EnvPrefix(env: Option<Env>): string {
    if env.Some? && |env.value| > 0 then SafeEnvExports(env.value) + " " else ""
  }

  /** The `command` that `Process.exec` puts into its `ExecuteRequest`; `env` is `None` when not given. */
  function ShellCommand(command: string, env: Option<Env>): string {
    SH_OPEN + EnvPrefix(env) + DecodeAndRun(command) + "\""
  }

  predicate IsNameChar(c: char) {
    'a' <= c <= 'z' || 'A' <= c <= 'Z' || '0' <= c <= '9' || c == '_'
  }

  /** A shell variable name: letters, digits and `_`, not starting with a digit. */
  predicate IsShellName(key: string) {
    key != [] && !('0' <= key[0] <= '9') && forall c :: c in key ==> IsNameChar(c)
  }

  /** Every key of `env`, when given, is a shell name (`Process.exec` does not check this). */
  predicate NamesOnly(env: Option<Env>) {
    env.Some? ==> forall i :: 0 <= i < |env.value| ==> IsShellName(env.value[i].0)
  }

  /** Characters that end or open something in a single- or double-quoted shell word, and newline. */
  predicate IsShellSpecial(c: char) {
    c == '\'' || c == '"' || c == '$' || c == '`' || c == '\\' || c == '\n'
  }

  /**
    Whatever `text` holds, its payload is drawn from `A`-`Z a`-`z 0`-`9 + / =` and so
    holds no quote, dollar, backtick, backslash or newline.
   */
  lemma PayloadIsInert(text: string)
    ensures forall c :: c in Payload(text) ==> Base64.IsEncodedChar(c) && !IsShellSpecial(c)
  {
    Base64.EncodedAlphabet(Utf8.Encode(text));
  }

  /** What `base64 -d` makes of a payload, read back as UTF-8 text. */
  function DecodePayload(p: string): Option<string> {
    match Base64.Decode(p)
    case None => None
    case Some(bytes) => Utf8.Decode(bytes)
  }

  /** The payload decodes, as `base64 -d` and UTF-8 read it, to the text it was made from. */
  lemma PayloadDecodes(text: string)
    ensures Base64.Decode(Payload(text)) == Some(Utf8.Encode(text))
    ensures Utf8.Decode(Utf8.Encode(text)) == Some(text)
    ensures DecodePayload(Payload(text)) == Some(text)
  {
    Base64.DecodeEncode(Utf8.Encode(text));
    Utf8.DecodeEncode(text);
  }

  /** The text after the last `'` of `s`; `None` if `s` has no `'`. */
  function AfterLastQuote(s: string): Option<string>
    decreases |s|
  {
    if s == [] then None
    else if s[|s| - 1] == '\'' then Some("")
    else
      match AfterLastQuote(s[..|s| - 1])
      case None => None
      case Some(t) => Some(t + [s[|s| - 1]])
  }

  lemma {:induction false} AfterLastQuoteOf(prefix: string, p: string)
    requires prefix != [] && prefix[|prefix| - 1] == '\''
    requires forall c :: c in p ==> c != '\''
    ensures AfterLastQuote(prefix + p) == Some(p)
    decreases |p|
  {
    var s := prefix + p;
    if p == [] {
      assert s == prefix;
    } else {
      var init := p[..|p| - 1];
      assert s[|s| - 1] == p[|p| - 1] && p[|p| - 1] in p;
      assert s[..|s| - 1] == prefix + init;
      assert forall c :: c in init ==> c in p;
      AfterLastQuoteOf(prefix, init);
      assert init + [p[|p| - 1]] == p;
    }
  }

  /**
    The quoted payload that ends a piece of shell text `s`: the text between the last
    `'` and `suffix`, when `s` ends with `suffix`.
   */
  function QuotedBefore(s: string, suffix: string): Option<string> {
    if |suffix| <= |s| && s[|s| - |suffix|..] == suffix then AfterLastQuote(s[..|s| - |suffix|])
    else None
  }

  /**
    The one word `sh -c` is given: the text between `sh -c "` and the `"` that ends the
    line, when no `"` in between closes the double quotes earlier.
   */
  function ShellWord(line: string): (r: Option<string>)
    ensures r.Some? ==> line == SH_OPEN + r.value + "\"" && '"' !in r.value
  {
    if |SH_OPEN| < |line| && line[..|SH_OPEN|] == SH_OPEN && line[|line| - 1] == '"'
       && '"' !in line[|SH_OPEN|..|line| - 1]
    then Some(line[|SH_OPEN|..|line| - 1])
    else None
  }

  /**
    What the remote shell runs for a line: when the line is one intact `sh -c "..."`
    word, the payload before its closing `| base64 -d | sh`, decoded.
   */
  function RemoteCommand(line: string): Option<string> {
    match ShellWord(line)
    case None => None
    case Some(word) =>
      match QuotedBefore(word, RUN_SUFFIX)
      case None => None
      case Some(p) => DecodePayload(p)
  }

  /** The length of the longest prefix of `s` made of name characters. */
  function NameLength(s: string): (n: nat)
    ensures n <= |s|
    ensures forall k :: 0 <= k < n ==> IsNameChar(s[k])
    ensures n < |s| ==> !IsNameChar(s[n])
    decreases |s|
  {
    if s == [] || !IsNameChar(s[0]) then 0 else 1 + NameLength(s[1..])
  }

  /** The payload of `payload + suffix`, when `s` ends with `suffix` and the payload holds no `'`. */
  function Unquoted(s: string, suffix: string): (r: Option<string>)
    ensures r.Some? ==> s == r.value + suffix && '\'' !in r.value
  {
    if |suffix| <= |s| && s[|s| - |suffix|..] == suffix && '\'' !in s[..|s| - |suffix|]
    then Some(s[..|s| - |suffix|])
    else None
  }

  /** `s` without the newlines it ends with. */
  function DropTrailingNewlines(s: string): string
    decreases |s|
  {
    if s != [] && s[|s| - 1] == '\n' then DropTrailingNewlines(s[..|s| - 1]) else s
  }

  lemma {:induction false} DropTrailingNewlinesRemovesNewlines(s: string)
    ensures var r := DropTrailingNewlines(s);
      && |r| <= |s| && r == s[..|r|]
      && (r == [] || r[|r| - 1] != '\n')
      && (forall k :: |r| <= k < |s| ==> s[k] == '\n')
    decreases |s|
  {
    if s != [] && s[|s| - 1] == '\n' {
      var init := s[..|s| - 1];
      DropTrailingNewlinesRemovesNewlines(init);
      var r := DropTrailingNewlines(init);
      assert r == DropTrailingNewlines(s);
      assert s[..|r|] == init[..|r|];
    }
  }

  /**
    What a command substitution `$(...)` makes of a command's output in a variable
    assignment: the output without its trailing newlines. A shell variable cannot
    hold a NUL and shells differ in what they do with one (bash drops it with a
    warning), so the model gives no reading (`None`) for an output holding one.
   */
  function CommandSubstitution(output: string): Option<string> {
    if '\0' in output then None else Some(DropTrailingNewlines(output))
  }

  /**
    What an export statement assigns, read as the shell reads it: `export `, the
    longest run of name characters as the variable, then `=$(echo '`, a payload with no
    `'` and `' | base64 -d)`; the value is what the command substitution makes of the
    decoded payload.
   */
  function ExportedAssignment(stmt: string): (r: Option<(string, string)>)
    ensures r.Some? ==> IsShellName(r.value.0)
  {
    if !StartsWith(stmt, EXPORT_PREFIX) then None
    else
      var rest := stmt[|EXPORT_PREFIX|..];
      var key := rest[..NameLength(rest)];
      var tail := rest[NameLength(rest)..];
      if !IsShellName(key) || !StartsWith(tail, ASSIGN_OPEN) then None
      else
        match Unquoted(tail[|ASSIGN_OPEN|..], EXPORT_SUFFIX)
        case None => None
        case Some(p) =>
          match DecodePayload(p)
          case None => None
          case Some(output) =>
            match CommandSubstitution(output)
            case None => None
            case Some(value) => Some((key, value))
  }

  lemma QuotedBeforeOf(prefix: string, p: string, suffix: string)
    requires prefix != [] && prefix[|prefix| - 1] == '\''
    requires forall c :: c in p ==> c != '\''
    ensures QuotedBefore(prefix + p + suffix, suffix) == Some(p)
  {
    var s := prefix + p + suffix;
    assert s[|s| - |suffix|..] == suffix;
    assert s[..|s| - |suffix|] == prefix + p;
    AfterLastQuoteOf(prefix, p);
  }

  lemma EndsWithQuote(a: string, e: string)
    requires e != [] && e[|e| - 1] == '\''
    ensures (a + e)[|a + e| - 1] == '\''
  {
  }

  /** An export statement whose key is a shell name holds no `"`. */
  lemma StatementHasNoDoubleQuote(key: string, value: string)
    requires IsShellName(key)
    ensures '"' !in ExportStatement(key, value)
  {
    PayloadIsInert(value);
    StatementAvoids(key, Payload(value), '"');
  }

  lemma StatementAvoids(key: string, p: string, c: char)
    requires c !in key && c !in p && c !in EXPORT_PREFIX && c !in ASSIGN_OPEN && c !in EXPORT_SUFFIX
    ensures c !in EXPORT_PREFIX + key + ASSIGN_OPEN + p + EXPORT_SUFFIX
  {
  }

  /** With shell-name keys the environment prefix holds no `"`, so it cannot end the `sh -c` word. */
  lemma EnvPrefixHasNoDoubleQuote(env: Option<Env>)
    requires NamesOnly(env)
    ensures '"' !in EnvPrefix(env)
  {
    if env.Some? && |env.value| > 0 {
      var stmts := ExportStatements(env.value);
      forall i | 0 <= i < |stmts|
        ensures '"' !in stmts[i]
      {
        StatementHasNoDoubleQuote(env.value[i].0, env.value[i].1);
      }
      JoinAvoids(";", stmts, '"');
    }
  }

  lemma ShellWordOf(word: string)
    requires '"' !in word
    ensures ShellWord(SH_OPEN + word + "\"") == Some(word)
  {
    var line := SH_OPEN + word + "\"";
    assert line[..|SH_OPEN|] == SH_OPEN;
    assert line[|SH_OPEN|..|line| - 1] == word;
  }

  lemma RunHasNoDoubleQuote(prefix: string, p: string)
    requires '"' !in prefix && '"' !in p
    ensures '"' !in prefix + ("echo '" + p + RUN_SUFFIX)
  {
    assert '"' !in "echo '" && '"' !in RUN_SUFFIX;
  }

  lemma RunWordReads(prefix: string, p: string)
    requires '"' !in prefix
    requires forall c :: c in p ==> !IsShellSpecial(c)
    ensures ShellWord(SH_OPEN + prefix + ("echo '" + p + RUN_SUFFIX) + "\"") == Some(prefix + ("echo '" + p + RUN_SUFFIX))
    ensures QuotedBefore(prefix + ("echo '" + p + RUN_SUFFIX), RUN_SUFFIX) == Some(p)
  {
    var word := prefix + ("echo '" + p + RUN_SUFFIX);
    RunHasNoDoubleQuote(prefix, p);
    ShellWordOf(word);
    assert SH_OPEN + prefix + ("echo '" + p + RUN_SUFFIX) + "\"" == SH_OPEN + word + "\"";
    assert word == (prefix + "echo '") + p + RUN_SUFFIX;
    EndsWithQuote(prefix, "echo '");
    QuotedBeforeOf(prefix + "echo '", p, RUN_SUFFIX);
  }

  /**
    Injection safety of the command: as long as every key is a shell name, the line is
    one intact `sh -c` word and the command the remote side decodes from its final
    pipeline is the original. Whether `base64` and `sh` are then found depends on the
    exported variables (an exported `PATH`), which this does not cover.
   */
  lemma RemoteCommandIsOriginal(command: string, env: Option<Env>)
    requires NamesOnly(env)
    ensures RemoteCommand(ShellCommand(command, env)) == Some(command)
  {
    EnvPrefixHasNoDoubleQuote(env);
    PayloadIsInert(command);
    RunWordReads(EnvPrefix(env), Payload(command));
    PayloadDecodes(command);
  }

  lemma {:induction false} NameLengthOf(key: string, rest: string)
    requires forall c :: c in key ==> IsNameChar(c)
    requires rest != [] && !IsNameChar(rest[0])
    ensures NameLength(key + rest) == |key|
    decreases |key|
  {
    if key == [] {
      assert key + rest == rest;
    } else {
      assert key[0] in key;
      assert (key + rest)[1..] == key[1..] + rest;
      forall c | c in key[1..]
        ensures IsNameChar(c)
      {
        assert c in key;
      }
      NameLengthOf(key[1..], rest);
    }
  }

  lemma StatementFields(e: string, key: string, a: string, p: string, s: string)
    requires forall c :: c in key ==> IsNameChar(c)
    requires a != [] && !IsNameChar(a[0])
    ensures var stmt := e + key + a + p + s;
      var rest := stmt[|e|..];
      && StartsWith(stmt, e)
      && NameLength(rest) == |key| && rest[..|key|] == key
      && StartsWith(rest[|key|..], a)
      && rest[|key|..][|a|..] == p + s
  {
    var stmt := e + key + a + p + s;
    var rest := stmt[|e|..];
    assert rest == key + (a + p + s);
    NameLengthOf(key, a + p + s);
    var tail := rest[|key|..];
    assert tail == a + (p + s);
  }

  lemma UnquotedOf(p: string, suffix: string)
    requires '\'' !in p
    ensures Unquoted(p + suffix, suffix) == Some(p)
  {
    assert (p + suffix)[..|p|] == p;
  }

  lemma StatementReads(key: string, p: string)
    requires IsShellName(key) && '\'' !in p
    ensures ExportedAssignment(EXPORT_PREFIX + key + ASSIGN_OPEN + p + EXPORT_SUFFIX) ==
      match DecodePayload(p)
      case None => None
      case Some(output) =>
        match CommandSubstitution(output)
        case None => None
        case Some(value) => Some((key, value))
  {
    StatementFields(EXPORT_PREFIX, key, ASSIGN_OPEN, p, EXPORT_SUFFIX);
    UnquotedOf(p, EXPORT_SUFFIX);
  }

  /**
    An export statement whose key is a shell name, read as an assignment, gives its key
    the value as the command substitution leaves it: without trailing newlines. The
    model gives no reading (`None`) for a value holding a NUL.
   */
  lemma ExportedValueReadBack(key: string, value: string)
    requires IsShellName(key)
    ensures ExportedAssignment(ExportStatement(key, value)) ==
      if '\0' in value then None else Some((key, DropTrailingNewlines(value)))
  {
    PayloadIsInert(value);
    StatementReads(key, Payload(value));
    PayloadDecodes(value);
  }

  /**
    Read as an assignment, each export statement gives exactly its value to exactly its
    key when the key is a shell name and the value neither ends with a newline nor
    holds a NUL. A shell that treats the arguments of `export` as ordinary words splits
    the value into fields instead; that is not modelled.
   */
  lemma ExportedValueIsOriginal(key: string, value: string)
    requires IsShellName(key)
    requires '\0' !in value && (value == [] || value[|value| - 1] != '\n')
    ensures ExportedAssignment(ExportStatement(key, value)) == Some((key, value))
  {
    ExportedValueReadBack(key, value);
  }

  /** `env={"K": "a\n"}` exports `K` as `a`: the trailing newline of the value is lost. */
  lemma TrailingNewlineLost()
    ensures ExportedAssignment(ExportStatement("K", "a\n")) == Some(("K", "a"))
  {
    ExportedValueReadBack("K", "a\n");
    assert "a\n"[..1] == "a";
    assert DropTrailingNewlines("a\n") == DropTrailingNewlines("a") == "a";
  }

  /** A key that is not a shell name never reads back as itself. */
  lemma OnlyNamesReadBack(key: string, value: string)
    requires !IsShellName(key)
    ensures ExportedAssignment(ExportStatement(key, value)) != Some((key, value))
  {
  }

  lemma TemplateWithout(p: string)
    ensures "sh -c \"" + "" + ("echo '" + p + RUN_SUFFIX) + "\"" == "sh -c \"echo '" + p + "' | base64 -d | sh\""
  {
    assert "sh -c \"" + "echo '" == "sh -c \"echo '";
    assert RUN_SUFFIX + "\"" == "' | base64 -d | sh\"";
  }

  /** With `env` absent or empty the line is the bare decode-and-run template. */
  lemma ShapeWithoutEnv(command: string, env: Option<Env>)
    requires env.None? || env.value == []
    ensures ShellCommand(command, env) == "sh -c \"echo '" + Payload(command) + "' | base64 -d | sh\""
  {
    TemplateWithout(Payload(command));
  }

  lemma TemplateWith(joined: string, p: string)
    ensures "sh -c \"" + (joined + ";" + " ") + ("echo '" + p + RUN_SUFFIX) + "\"" ==
      "sh -c \"" + joined + "; echo '" + p + "' | base64 -d | sh\""
  {
    assert ";" + " " + "echo '" == "; echo '";
    assert RUN_SUFFIX + "\"" == "' | base64 -d | sh\"";
  }

  /**
    With a non-empty `env` the line is one export statement per item, in the dict's
    order, joined by `;`, then `;`, one space and the template.
   */
  lemma ShapeWithEnv(command: string, env: Env)
    requires |env| > 0
    ensures ShellCommand(command, Some(env)) ==
      "sh -c \"" + Join(";", ExportStatements(env)) + "; echo '" + Payload(command) + "' | base64 -d | sh\""
  {
    TemplateWith(Join(";", ExportStatements(env)), Payload(command));
  }

  lemma KeyAt(key: string, rest: string)
    ensures ("sh -c \"" + ("export " + key + rest))[14..14 + |key|] == key
  {
    SliceOfConcat("sh -c \"", "export ", key, rest);
  }

  lemma SliceOfConcat(a: string, b: string, k: string, rest: string)
    ensures (a + (b + k + rest))[|a| + |b|..|a| + |b| + |k|] == k
  {
    assert (a + (b + k + rest))[|a| + |b|..|a| + |b| + |k|] == (b + k + rest)[|b|..|b| + |k|];
  }

  lemma OneExportLine(key: string, pv: string, run: string)
    ensures "sh -c \"" + (("export " + key + "=$(echo '" + pv + EXPORT_SUFFIX) + ";" + " ") + run + "\"" ==
      "sh -c \"" + ("export " + key + ("=$(echo '" + pv + EXPORT_SUFFIX + ";" + " " + run + "\""))
  {
  }

  /**
    Keys are not encoded: the key of a one-item environment goes into the line
    character for character at offset 14, so a key holding `"`, `;` or `$(` changes the
    line in a way no command or value can.
   */
  lemma KeyIsNotEncoded(command: string, key: string, value: string)
    ensures ShellCommand(command, Some([(key, value)]))[14..14 + |key|] == key
  {
    var env := [(key, value)];
    var stmt := ExportStatement(key, value);
    assert ExportStatements(env) == [stmt];
    assert Join(";", [stmt]) == stmt;
    assert EnvPrefix(Some(env)) == stmt + ";" + " ";
    var run := DecodeAndRun(command);
    var pv := Payload(value);
    OneExportLine(key, pv, run);
    KeyAt(key, "=$(echo '" + pv + EXPORT_SUFFIX + ";" + " " + run + "\"");
  }

  /**
    A `"` in a key closes the `sh -c` word early: for a one-item environment whose key
    holds one, the line is no longer a single intact word and runs nothing known.
   */
  lemma QuoteInKeyBreaksLine(command: string, key: string, value: string)
    requires '"' in key
    ensures RemoteCommand(ShellCommand(command, Some([(key, value)]))) == None
  {
    var line := ShellCommand(command, Some([(key, value)]));
    KeyIsNotEncoded(command, key, value);
    var k :| 0 <= k < |key| && key[k] == '"';
    assert line[14 + k] == line[14..14 + |key|][k];
    assert |line| >= 16 + |key| by {
      assert |EnvPrefix(Some([(key, value)]))| >= |ExportStatement(key, value)|;
    }
    assert line[|SH_OPEN|..|line| - 1][7 + k] == '"';
  }
}

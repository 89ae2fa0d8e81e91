/**
 * The Mocha shim: how the extension prepares a test-discovery worker, how it
 * decides the worker's outcome from its exit code and diagnostic output, and
 * the per-pattern terminal sessions into which test runs are sent.
 *
 * Foreign code is passed in rather than modelled: `path.resolve` as `resolve`,
 * `path.sep` as `sep`, `JSON.parse` as `parse` (None for a thrown exception),
 * `process.env` and `config.env()` as maps, `config.subdirectory()` as an
 * optional string.
 */
module MochaShim {
  import opened Wrappers

  // ---------------------------------------------------------------------------
  // Environment of the discovery worker
  // ---------------------------------------------------------------------------

  const NodePath := "NODE_PATH"

  /** `Object.assign({}, process.env, {NODE_PATH: ...}, config.env())`: later sources win. */
  function EnvWithNodePath(processEnv: map<string, string>, rootPath: string, sep: string,
                           configEnv: map<string, string>): (env: map<string, string>)
    ensures env.Keys == processEnv.Keys + {NodePath} + configEnv.Keys
    ensures forall k :: k in configEnv ==> env[k] == configEnv[k]
    ensures NodePath !in configEnv ==> env[NodePath] == rootPath + sep + "node_modules"
    ensures forall k :: k in processEnv && k !in configEnv && k != NodePath ==> env[k] == processEnv[k]
  {
    processEnv[NodePath := rootPath + sep + "node_modules"] + configEnv
  }

  /** The worker's root: `rootPath` resolved against a non-empty configured subdirectory. */
  function ApplySubdirectory(rootPath: string, subdirectory: Option<string>,
                             resolve: (string, string) -> string): (root: string)
    ensures subdirectory == None || subdirectory == Some("") ==> root == rootPath
    ensures subdirectory.Some? && subdirectory.value != "" ==> root == resolve(rootPath, subdirectory.value)
  {
    match subdirectory
    case Some(sub) => if sub != "" then resolve(rootPath, sub) else rootPath
    case None => rootPath
  }

  /** The settings the shim reads from its configuration module; `options` is passed through as is. */
  datatype Settings<O> = Settings(options: O, glob: string, ignore: seq<string>, requireModules: seq<string>,
                                  subdirectory: Option<string>, env: map<string, string>)

  /** The request object handed to the worker as its single (JSON-encoded) argument. */
  datatype WorkerRequest<O> = WorkerRequest(options: O, glob: string, ignore: seq<string>,
                                            requireModules: seq<string>, rootPath: string)

  /** Everything `findTests` passes to `fork`: the worker script, its argument and its environment. */
  datatype Invocation<O> = Invocation(script: string, request: WorkerRequest<O>, env: map<string, string>)

  const WorkerScript := "../worker/findtests.js"

  /** How `findTests` sets up the worker before spawning it. */
  function FindTestsInvocation<O>(rootPath: string, settings: Settings<O>, moduleFile: string,
                                  processEnv: map<string, string>, sep: string,
                                  resolve: (string, string) -> string): (inv: Invocation<O>)
    ensures inv.script == resolve(moduleFile, WorkerScript)
    ensures inv.request.rootPath == ApplySubdirectory(rootPath, settings.subdirectory, resolve)
    ensures inv.request.options == settings.options && inv.request.glob == settings.glob
    ensures inv.request.ignore == settings.ignore && inv.request.requireModules == settings.requireModules
    ensures inv.env == EnvWithNodePath(processEnv, inv.request.rootPath, sep, settings.env)
    ensures NodePath in inv.env
    ensures NodePath !in settings.env ==> inv.env[NodePath] == inv.request.rootPath + sep + "node_modules"
    ensures forall k :: k in settings.env ==> k in inv.env && inv.env[k] == settings.env[k]
    ensures forall k :: k in processEnv ==> k in inv.env
  {
    var root := ApplySubdirectory(rootPath, settings.subdirectory, resolve);
    Invocation(resolve(moduleFile, WorkerScript),
               WorkerRequest(settings.options, settings.glob, settings.ignore, settings.requireModules, root),
               EnvWithNodePath(processEnv, root, sep, settings.env))
  }

  // ---------------------------------------------------------------------------
  // Stripping Node.js deprecation warnings: the global replacement of
  // /\(node:\d+\) DeprecationWarning:\s[^\n]+/ by the empty string
  // ---------------------------------------------------------------------------

  const WarningHead := "(node:"
  const WarningTail := ") DeprecationWarning:"

  /** `p` is a prefix of `s`, compared character by character. */
  predicate StartsWith(s: string, p: string)
    ensures StartsWith(s, p) <==> |p| <= |s| && s[..|p|] == p
  {
    |p| == 0 || (|s| > 0 && s[0] == p[0] && StartsWith(s[1..], p[1..]))
  }

  /** `\d` */
  predicate IsDigit(c: char) { '0' <= c <= '9' }

  /** `\s`: the ECMAScript WhiteSpace and LineTerminator characters. */
  predicate IsRegExpSpace(c: char) {
    c == '\t' || c == '\n' || c == '\U{B}' || c == '\U{C}' || c == '\r' || c == ' '
    || c == '\U{A0}' || c == '\U{1680}' || ('\U{2000}' <= c <= '\U{200A}')
    || c == '\U{2028}' || c == '\U{2029}' || c == '\U{202F}' || c == '\U{205F}'
    || c == '\U{3000}' || c == '\U{FEFF}'
  }

  /** Length of the longest prefix of `s` made of digits: the greedy `\d+`. */
  function DigitRun(s: string): (n: nat)
    ensures n <= |s|
    ensures forall i :: 0 <= i < n ==> IsDigit(s[i])
    ensures n < |s| ==> !IsDigit(s[n])
  {
    if |s| > 0 && IsDigit(s[0]) then 1 + DigitRun(s[1..]) else 0
  }

  /** Length of the longest prefix of `s` without a newline: the greedy `[^\n]+`. */
  function LineRun(s: string): (n: nat)
    ensures n <= |s|
    ensures forall i :: 0 <= i < n ==> s[i] != '\n'
    ensures n < |s| ==> s[n] == '\n'
  {
    if |s| > 0 && s[0] != '\n' then 1 + LineRun(s[1..]) else 0
  }

  /**
   * The length of the warning that starts at the beginning of `s`, if one does.
   * Greedy matching never needs to backtrack here: a digit is never `)`, and
   * nothing follows `[^\n]+`, so the match is unique and runs to the end of its line.
   */
  function WarningAt(s: string): (m: Option<nat>)
    ensures m.Some? ==> 0 < m.value <= |s|
    ensures m.Some? ==> |WarningHead| < m.value && s[..|WarningHead|] == WarningHead
    ensures m.Some? ==> m.value == |s| || s[m.value] == '\n'
    ensures m.Some? ==>
      var j := |WarningHead| + DigitRun(s[|WarningHead|..]);
      |WarningHead| < j && j + |WarningTail| + 1 < m.value
      && s[j..j + |WarningTail|] == WarningTail && IsRegExpSpace(s[j + |WarningTail|])
      && forall i :: j + |WarningTail| + 1 <= i < m.value ==> s[i] != '\n'
    ensures StartsWith(s, WarningHead) ==>
      var j := |WarningHead| + DigitRun(s[|WarningHead|..]);
      |WarningHead| < j && j + |WarningTail| + 1 < |s| && s[j..j + |WarningTail|] == WarningTail
      && IsRegExpSpace(s[j + |WarningTail|]) && s[j + |WarningTail| + 1] != '\n'
      ==> m.Some?
  {
    if !StartsWith(s, WarningHead) then None
    else
      var d := DigitRun(s[|WarningHead|..]);
      var j := |WarningHead| + d;
      TailAt(s, j);
      if d == 0 || !StartsWith(s[j..], WarningTail) || |s| == j + |WarningTail|
         || !IsRegExpSpace(s[j + |WarningTail|]) then None
      else
        var k := LineRun(s[j + |WarningTail| + 1..]);
        LineRunAt(s, j + |WarningTail| + 1);
        if k == 0 then None else Some(j + |WarningTail| + 1 + k)
  }

  lemma TailAt(s: string, j: nat)
    requires j <= |s|
    ensures StartsWith(s[j..], WarningTail) <==> j + |WarningTail| <= |s| && s[j..j + |WarningTail|] == WarningTail
  {
    if j + |WarningTail| <= |s| {
      assert s[j..][..|WarningTail|] == s[j..j + |WarningTail|];
    }
  }

  lemma LineRunAt(s: string, t: nat)
    requires t <= |s|
    ensures t + LineRun(s[t..]) <= |s|
    ensures forall i :: t <= i < t + LineRun(s[t..]) ==> s[i] != '\n'
    ensures t + LineRun(s[t..]) < |s| ==> s[t + LineRun(s[t..])] == '\n'
    ensures t < |s| && s[t] != '\n' ==> LineRun(s[t..]) > 0
  {
    forall i | t <= i < t + LineRun(s[t..]) ensures s[i] != '\n' {
      assert s[t..][i - t] == s[i];
    }
  }

  /** No warning starts anywhere in `s`. */
  ghost predicate NoWarning(s: string) {
    forall i :: 0 <= i < |s| ==> WarningAt(s[i..]).None?
  }

  /**
   * `stripWarnings`: scan left to right; where a warning starts, drop it and go on
   * after it, otherwise keep the character and go on with the next one.
   */
  function StripWarnings(text: string): (r: string)
    ensures |r| <= |text|
    decreases |text|
  {
    if |text| == 0 then ""
    else match WarningAt(text)
      case Some(n) => StripWarnings(text[n..])
      case None => [text[0]] + StripWarnings(text[1..])
  }

  lemma {:induction false} StripWarningsUnchangedWithoutWarning(s: string)
    requires NoWarning(s)
    ensures StripWarnings(s) == s
    decreases |s|
  {
    if |s| > 0 {
      assert s[0..] == s;
      assert WarningAt(s[0..]).None?;
      forall i | 0 <= i < |s[1..]| ensures WarningAt(s[1..][i..]).None? {
        assert s[1..][i..] == s[i + 1..];
      }
      StripWarningsUnchangedWithoutWarning(s[1..]);
      assert s == [s[0]] + s[1..];
    }
  }

  lemma {:induction false} StripWarningsShrinksOnWarning(s: string, i: nat)
    requires i < |s| && WarningAt(s[i..]).Some?
    ensures |StripWarnings(s)| < |s|
    decreases |s|
  {
    if WarningAt(s).None? {
      assert i != 0 by { assert s[0..] == s; }
      assert s[1..][i - 1..] == s[i..];
      StripWarningsShrinksOnWarning(s[1..], i - 1);
    }
  }

  /** `stripWarnings` changes its input exactly when a warning occurs in it. */
  lemma StripWarningsIdentityIff(s: string)
    ensures StripWarnings(s) == s <==> NoWarning(s)
  {
    if NoWarning(s) {
      StripWarningsUnchangedWithoutWarning(s);
    } else {
      var i :| 0 <= i < |s| && WarningAt(s[i..]).Some?;
      StripWarningsShrinksOnWarning(s, i);
    }
  }

  /** No warning starts in the first `n` characters of `s`. */
  ghost predicate NoWarningBefore(s: string, n: nat) {
    forall i :: 0 <= i < n && i < |s| ==> WarningAt(s[i..]).None?
  }

  lemma StripWarningsKeepsFirst(s: string)
    requires 0 < |s| && NoWarningBefore(s, 1)
    ensures StripWarnings(s) == [s[0]] + StripWarnings(s[1..])
  {
    assert s[0..] == s;
  }

  lemma NoWarningBeforeRest(s: string, n: nat)
    requires 0 < n <= |s| && NoWarningBefore(s, n)
    ensures NoWarningBefore(s[1..], n - 1)
  {
    forall i | 0 <= i < n - 1 && i < |s[1..]| ensures WarningAt(s[1..][i..]).None? {
      assert s[1..][i..] == s[i + 1..];
    }
  }

  /** Text before the first warning is kept verbatim; the scan resumes right where it ends. */
  lemma {:induction false} StripWarningsKeepsCleanPrefix(s: string, n: nat)
    requires n <= |s| && NoWarningBefore(s, n)
    ensures StripWarnings(s) == s[..n] + StripWarnings(s[n..])
    decreases n
  {
    if n > 0 {
      StripWarningsKeepsFirst(s);
      NoWarningBeforeRest(s, n);
      StripWarningsKeepsCleanPrefix(s[1..], n - 1);
      SplitAfterFirst(s, n, StripWarnings(s[1..]), StripWarnings(s[n..]));
    } else {
      assert s[..0] == [] && s[0..] == s;
    }
  }

  lemma SplitAfterFirst(s: string, n: nat, tail: string, rest: string)
    requires 0 < n <= |s|
    ensures s[1..][n - 1..] == s[n..]
    ensures tail == s[1..][..n - 1] + rest ==> [s[0]] + tail == s[..n] + rest
  {
    assert s[..n] == [s[0]] + s[1..][..n - 1];
  }

  /** The first warning is removed, and stripping continues after it. */
  lemma StripWarningsRemovesFirstWarning(s: string, n: nat)
    requires n < |s| && NoWarningBefore(s, n) && WarningAt(s[n..]).Some?
    ensures StripWarnings(s) == s[..n] + StripWarnings(s[n + WarningAt(s[n..]).value..])
  {
    StripWarningsKeepsCleanPrefix(s, n);
    assert s[n..][WarningAt(s[n..]).value..] == s[n + WarningAt(s[n..]).value..];
  }

  /** A warning printed ahead of the worker's JSON document is removed up to its line end. */
  lemma StripWarningsExample()
    ensures StripWarnings(WarningHead + "7" + WarningTail + " x" + "\n[]") == "\n[]"
  {
    var rest := "\n[]";
    var text := WarningHead + "7" + WarningTail + " x" + rest;
    assert text[..6] == WarningHead;
    var afterHead := text[6..];
    assert afterHead == "7" + WarningTail + " x" + rest;
    assert afterHead[1..] == WarningTail + " x" + rest;
    assert DigitRun(afterHead[1..]) == 0;
    assert DigitRun(afterHead) == 1;
    assert text[7..] == WarningTail + " x" + rest;
    assert text[7..][..21] == WarningTail;
    assert text[28] == ' ';
    var line := text[29..];
    assert line == "x" + rest;
    assert line[1..] == rest;
    assert LineRun(line) == 1;
    assert WarningAt(text) == Some(30);
    assert text[30..] == rest;
    forall i | 0 <= i < |rest| ensures WarningAt(rest[i..]).None? {
      assert rest[i..][0] != '(';
    }
    StripWarningsUnchangedWithoutWarning(rest);
  }

  // ---------------------------------------------------------------------------
  // The outcome of discovery, decided when the worker exits
  // ---------------------------------------------------------------------------

  /**
   * What `resultJSON` holds: the empty string when the worker wrote nothing to its
   * diagnostic stream (it is then not parsed), and otherwise the parsed document.
   */
  datatype Parsed<T> = EmptyText | Json(value: T)

  /**
   * The settled promise of `findTests`: resolved with `resultJSON`, or rejected
   * after the raw diagnostic text `shown` was written to the "Mocha" output channel.
   */
  datatype Discovery<T> = Resolved(result: Parsed<T>) | Rejected(shown: string)

  /** JavaScript truthiness of an exit code; `None` is the `null` code of a signalled process. */
  predicate Failing(code: Option<int>) {
    code.Some? && code.value != 0
  }

  /** The `exit` handler of `findTests`: a parse failure overrides the code with 1. */
  function OnWorkerExit<T>(code: Option<int>, stderrText: string, parse: string -> Option<T>): (d: Discovery<T>)
    ensures d.Resolved? <==> !Failing(code) && (stderrText == "" || parse(StripWarnings(stderrText)).Some?)
    ensures d.Rejected? ==> d.shown == stderrText
    ensures d.Resolved? && stderrText == "" ==> d.result == EmptyText
    ensures d.Resolved? && stderrText != "" ==> d.result == Json(parse(StripWarnings(stderrText)).value)
  {
    var resultJSON: Option<Parsed<T>> :=
      if stderrText == "" then Some(EmptyText)
      else match parse(StripWarnings(stderrText))
        case Some(v) => Some(Json(v))
        case None => None;
    var effectiveCode := if resultJSON.None? then Some(1) else code;
    if Failing(effectiveCode) then Rejected(stderrText) else Resolved(resultJSON.value)
  }

  // ---------------------------------------------------------------------------
  // The text sent into a terminal
  // ---------------------------------------------------------------------------

  /** How JavaScript turns `grep` into an object key and into template text: `null` becomes "null". */
  function KeyText(grep: Option<string>): (key: string)
    ensures grep.Some? ==> key == grep.value
    ensures grep.None? ==> key == "null"
  {
    match grep
    case Some(g) => g
    case None => "null"
  }

  const RunCommandBase := "node node_modules/mocha/bin/_mocha --opts mocha.opts ./**/*.spec.js"
  const GrepFlag := " --grep \""

  /** The command of `runTests` as written: the pattern is always embedded, unescaped, in quotes. */
  function CommandAsWritten(grep: Option<string>): (cmd: string)
    ensures |cmd| == |RunCommandBase| + |GrepFlag| + |KeyText(grep)| + 1
    ensures cmd[..|RunCommandBase|] == RunCommandBase
    ensures cmd[|RunCommandBase|..|RunCommandBase| + |GrepFlag|] == GrepFlag && cmd[|cmd| - 1] == '"'
    ensures cmd[|RunCommandBase| + |GrepFlag|..|cmd| - 1] == KeyText(grep)
  {
    RunCommandBase + GrepFlag + KeyText(grep) + "\""
  }

  /** As written, running without a pattern sends exactly the command that filters by the pattern "null". */
  lemma NoPatternGrepsForNull()
    ensures CommandAsWritten(None) == CommandAsWritten(Some("null"))
    ensures CommandAsWritten(None) == RunCommandBase + " --grep \"null\""
  {
  }

  /** The command with the evident intent: `--grep "<pattern>"` only when a pattern is present. */
  function Command(grep: Option<string>): (cmd: string)
    ensures grep.Some? ==> cmd == CommandAsWritten(grep)
    ensures grep.None? ==> cmd == RunCommandBase
  {
    match grep
    case Some(g) => RunCommandBase + GrepFlag + g + "\""
    case None => RunCommandBase
  }

  /** Reads the pattern back out of a command. */
  function GrepOf(cmd: string): Option<string> {
    if |cmd| >= |RunCommandBase| + |GrepFlag| + 1 then
      Some(cmd[|RunCommandBase| + |GrepFlag|..|cmd| - 1])
    else None
  }

  /** The corrected command carries its pattern, and only it: distinct patterns give distinct commands. */
  lemma {:induction false} GrepOfCommand(grep: Option<string>)
    ensures GrepOf(Command(grep)) == grep
  {
    match grep
    case Some(g) =>
      var cmd := Command(grep);
      assert cmd[|RunCommandBase| + |GrepFlag|..|cmd| - 1] == g;
    case None =>
  }

  lemma CommandInjective(g1: Option<string>, g2: Option<string>)
    requires Command(g1) == Command(g2)
    ensures g1 == g2
  {
    GrepOfCommand(g1);
    GrepOfCommand(g2);
  }

  // ---------------------------------------------------------------------------
  // Terminal sessions, one per pattern
  // ---------------------------------------------------------------------------

  /** An abstract VS Code terminal; `createTerminal` hands out the next unused one. */
  type TerminalId = nat

  /** One `sendText` into a terminal (made visible just before with `show(true)`). */
  datatype Sent = Sent(terminal: TerminalId, text: string)

  /** A key is flagged exactly while it has a live terminal; live terminals are distinct and already handed out. */
  ghost predicate SessionsValid(terminals: map<string, Option<TerminalId>>, terminalEventSet: map<string, bool>,
                                listeners: nat, nextTerminal: TerminalId)
  {
    (forall k :: k in terminals && terminals[k].Some? ==> terminals[k].value < nextTerminal)
    && (forall k1, k2 :: k1 in terminals && k2 in terminals && terminals[k1].Some? && terminals[k1] == terminals[k2] ==> k1 == k2)
    && (forall k :: k in terminalEventSet && terminalEventSet[k] <==> k in terminals && terminals[k].Some?)
    && (terminals != map[] ==> listeners > 0)
  }

  /** Giving `key` the terminal it already has, or a fresh one, keeps the sessions valid. */
  lemma OpenKeepsValid(terminals: map<string, Option<TerminalId>>, terminalEventSet: map<string, bool>,
                       listeners: nat, nextTerminal: TerminalId, key: string, terminal: TerminalId)
    requires SessionsValid(terminals, terminalEventSet, listeners, nextTerminal)
    requires key in terminals && terminals[key].Some? ==> terminals[key] == Some(terminal)
    requires !(key in terminals && terminals[key].Some?) ==> terminal == nextTerminal
    ensures var live := key in terminals && terminals[key].Some?;
      SessionsValid(terminals[key := Some(terminal)], terminalEventSet[key := true],
                    if live then listeners else listeners + 1, if live then nextTerminal else nextTerminal + 1)
  {
  }

  /**
   * The module-level dictionaries of the shim. `terminals[k]` is `None` once the
   * terminal for key `k` was closed; `listeners` counts the close handlers registered
   * with VS Code; `sent` is the log of commands sent into terminals.
   */
  class SessionManager {
    var terminals: map<string, Option<TerminalId>>
    var terminalEventSet: map<string, bool>
    var listeners: nat
    var nextTerminal: TerminalId
    ghost var sent: seq<Sent>

    /** A key is flagged exactly while it has a live terminal; live terminals are distinct. */
    ghost predicate Valid()
      reads this
    {
      SessionsValid(terminals, terminalEventSet, listeners, nextTerminal)
    }

    /** The terminal currently open for `key`, if any. */
    ghost function Live(key: string): Option<TerminalId>
      reads this
    {
      if key in terminals then terminals[key] else None
    }

    constructor ()
      ensures Valid()
      ensures terminals == map[] && terminalEventSet == map[] && listeners == 0 && sent == []
    {
      terminals := map[];
      terminalEventSet := map[];
      listeners := 0;
      nextTerminal := 0;
      sent := [];
    }

    /**
     * `runTests(testFiles, grep, messages)`: reuse the open terminal for the key or
     * create one, send the command into it, and register a close handler unless the
     * key already has one. The files and messages play no part.
     */
    method RunTests(testFiles: seq<string>, grep: Option<string>, messages: Option<seq<string>>)
      returns (terminal: TerminalId)
      requires Valid()
      modifies this
      ensures Valid()
      ensures old(Live(KeyText(grep))).Some? ==> terminal == old(Live(KeyText(grep))).value && nextTerminal == old(nextTerminal)
      ensures old(Live(KeyText(grep))).None? ==> terminal == old(nextTerminal) && nextTerminal == old(nextTerminal) + 1
      ensures old(Live(KeyText(grep))).None? ==> forall k :: k in old(terminals) && old(terminals)[k].Some? ==> old(terminals)[k].value != terminal
      ensures terminals == old(terminals)[KeyText(grep) := Some(terminal)]
      ensures terminalEventSet == old(terminalEventSet)[KeyText(grep) := true]
      ensures listeners == old(listeners) + (if old(Live(KeyText(grep))).Some? then 0 else 1)
      ensures sent == old(sent) + [Sent(terminal, Command(grep))]
    {
      var key := KeyText(grep);
      if key in terminals && terminals[key].Some? {
        terminal := terminals[key].value;
        OpenKeepsValid(terminals, terminalEventSet, listeners, nextTerminal, key, terminal);
      } else {
        terminal := nextTerminal;
        OpenKeepsValid(terminals, terminalEventSet, listeners, nextTerminal, key, terminal);
        nextTerminal := nextTerminal + 1;
      }
      terminals := terminals[key := Some(terminal)];
      sent := sent + [Sent(terminal, Command(grep))];
      if !(key in terminalEventSet && terminalEventSet[key]) {
        listeners := listeners + 1;
        terminalEventSet := terminalEventSet[key := true];
      }
    }

    /**
     * VS Code closed the terminal named `name`. Every registered handler does the same
     * thing, so running them all is running one: evict the entry if it is live.
     */
    method OnClose(name: string)
      requires Valid()
      modifies this
      ensures Valid()
      ensures old(Live(name)).Some? ==>
                terminals == old(terminals)[name := None] && terminalEventSet == old(terminalEventSet)[name := false]
      ensures old(Live(name)).None? ==> terminals == old(terminals) && terminalEventSet == old(terminalEventSet)
      ensures listeners == old(listeners) && nextTerminal == old(nextTerminal) && sent == old(sent)
    {
      if listeners > 0 && name in terminals && terminals[name].Some? {
        terminals := terminals[name := None];
        terminalEventSet := terminalEventSet[name := false];
      }
    }
  }

  /** Two runs with one pattern share a terminal; after it is closed, a third run gets a new one. */
  method ReuseThenCloseScenario(grep: string) returns (first: TerminalId, second: TerminalId, third: TerminalId)
    ensures first == second
    ensures third != first
  {
    var shim := new SessionManager();
    first := shim.RunTests(["a.spec.js"], Some(grep), None);
    second := shim.RunTests(["b.spec.js"], Some(grep), Some(["again"]));
    shim.OnClose(grep);
    third := shim.RunTests(["a.spec.js"], Some(grep), None);
  }
}

/**
 * The ursula command-line wrapper around `ansible-playbook`
 * (ursula_cli/shell.py): the pinned-version check on the tool's banner, the
 * process environment it assembles for the tool's SSH transport, the
 * command line it launches, and the exit code it ends with.
 *
 * The process-wide environment is the field `environ` of a `Process`; the
 * list of pass-through arguments is an `ArgList` that `Run` extends in
 * place. The file system, the version banner and the child process are
 * parameters: `pathExists` and `isFile` answer `os.path.exists` and
 * `os.path.isfile`, `versionProbe` is what `ansible-playbook --version`
 * printed (`None` when it exited non-zero), and `exec` gives the child's
 * return code for a command line and environment (`None` when it could not
 * be started).
 */
module Shell {
  import opened PyStr

  datatype Option<+T> = None | Some(value: T)
  datatype Result<+T, +E> = Success(value: T) | Failure(error: E)
  datatype Outcome<+E> = Pass | Fail(error: E)

  /** Every exception that `main` turns into exit code -1. */
  datatype Error =
    | VersionCommandFailed          // `ansible-playbook --version` exited non-zero
    | MissingVersionToken           // the banner's first line has no second word
    | WrongVersion(found: string)   // the second word is not the pinned version
    | EnvironmentMissing(path: string)
    | InventoryMissing(path: string)
    | LaunchFailed                  // the child process could not be started

  /** The parsed command line (the debug flag only sets the log level). */
  datatype Args = Args(environment: string, playbook: string, ursulaForward: bool, ursulaTest: bool)

  const ANSIBLE_VERSION: string := "1.7.2-bbg"

  const SSH_ARGS_VAR: string := "ANSIBLE_SSH_ARGS"
  const UNBUFFERED_VAR: string := "PYTHONUNBUFFERED"
  const FORCE_COLOR_VAR: string := "ANSIBLE_FORCE_COLOR"
  const VAR_DEFAULTS_VAR: string := "ANSIBLE_VAR_DEFAULTS_FILE"

  const CONTROL_MASTER: string := "-o ControlMaster=auto"
  const CONTROL_PATH: string := "-o ControlPath=~/.ssh/controlmasters/u-%r@%h:%p"
  const CONTROL_PERSIST: string := "-o ControlPersist=300"

  /** The SSH options every run starts from, in this order. */
  const DEFAULT_SSH_ARGS: string := CONTROL_MASTER + " " + CONTROL_PATH + " " + CONTROL_PERSIST

  const TEST_ARGS: seq<string> := ["--syntax-check", "--list-tasks"]

  // ---------------------------------------------------------------------
  // Version check

  /**
   * `_check_ansible_version` on the banner text: the second space-separated
   * word of the first line must be the pinned version.
   */
  function CheckAnsibleVersion(output: string): (r: Outcome<Error>)
    ensures r.Fail? ==> r.error == MissingVersionToken || (r.error.WrongVersion? && r.error.found != ANSIBLE_VERSION)
  {
    CheckVersion(output, ANSIBLE_VERSION)
  }

  /** The same check against any pinned version string. */
  function CheckVersion(output: string, pinned: string): (r: Outcome<Error>)
    ensures r.Fail? ==> r.error == MissingVersionToken || r.error.WrongVersion?
    ensures r.Fail? && r.error.WrongVersion? ==> r.error.found != pinned
  {
    var firstLine := Split(output, '\n')[0];
    var words := Split(firstLine, ' ');
    if |words| < 2 then Fail(MissingVersionToken)
    else if words[1] != pinned then Fail(WrongVersion(words[1]))
    else Pass
  }

  /** The version check including the case where the banner command failed. */
  function ProbeCheck(versionProbe: Option<string>): (r: Outcome<Error>)
    ensures r == Fail(VersionCommandFailed) <==> versionProbe.None?
    ensures versionProbe.Some? ==> r == CheckAnsibleVersion(versionProbe.value)
  {
    match versionProbe
    case None => Fail(VersionCommandFailed)
    case Some(output) => CheckAnsibleVersion(output)
  }

  /**
   * The banner's first line starts with one word, then a space at `i`, then
   * `pinned`, which ends the line or is followed by a space.
   */
  ghost predicate ReportsVersion(output: string, pinned: string, i: nat)
  {
    var end := i + 1 + |pinned|;
    && end <= |output|
    && output[i] == ' '
    && (forall k :: 0 <= k < i ==> output[k] != ' ' && output[k] != '\n')
    && output[i + 1..end] == pinned
    && (end == |output| || output[end] == ' ' || output[end] == '\n')
  }

  /** No space occurs before the first line break. */
  ghost predicate SingleWordFirstLine(output: string)
  {
    forall k :: 0 <= k < |output| && output[k] == ' ' ==> '\n' in output[..k]
  }

  /** The pinned version is one word; stated once so that proofs need not unfold the literal. */
  lemma PinnedVersionIsOneWord()
    ensures ' ' !in ANSIBLE_VERSION && '\n' !in ANSIBLE_VERSION
  {
  }

  /** The banner check passes exactly when its first line reports 1.7.2-bbg. */
  lemma AnsibleVersionAccepted(output: string)
    ensures CheckAnsibleVersion(output) == Pass <==> exists i :: ReportsVersion(output, ANSIBLE_VERSION, i)
  {
    PinnedVersionIsOneWord();
    VersionAccepted(output, ANSIBLE_VERSION);
  }

  /** For a one-word version, the check passes exactly when the first line reports it. */
  lemma {:induction false} VersionAccepted(output: string, pinned: string)
    requires ' ' !in pinned && '\n' !in pinned
    ensures CheckVersion(output, pinned) == Pass <==> exists i :: ReportsVersion(output, pinned, i)
  {
    if CheckVersion(output, pinned) == Pass {
      var i := AcceptedVersionPosition(output, pinned);
    }
    forall i: nat | ReportsVersion(output, pinned, i) ensures CheckVersion(output, pinned) == Pass {
      ReportedVersionAccepted(output, pinned, i);
    }
  }

  /** An accepted banner reports the version after its first space. */
  lemma {:induction false} AcceptedVersionPosition(output: string, pinned: string) returns (i: nat)
    requires CheckVersion(output, pinned) == Pass
    ensures ReportsVersion(output, pinned, i)
  {
    var j := FirstLineEnd(output);
    var line := output[..j];
    var m;
    i, m := SecondWordAt(line);
    assert output[..i] == line[..i];
    assert output[i + 1..i + 1 + m] == line[i + 1..i + 1 + m];
    WordsGiveWitness(output, pinned, j, i, m);
  }

  /** The first line of `output` is `output[..j]`. */
  lemma FirstLineEnd(output: string) returns (j: nat)
    ensures j <= |output| && '\n' !in output[..j] && (j < |output| ==> output[j] == '\n')
    ensures Split(output, '\n')[0] == output[..j]
  {
    j := FirstIndex(output, '\n');
    SplitAtFirst(output, '\n', j);
  }

  /** In a line of two or more words, the second runs from `i + 1` for `m` characters. */
  lemma SecondWordAt(line: string) returns (i: nat, m: nat)
    requires |Split(line, ' ')| >= 2
    ensures i + 1 + m <= |line| && ' ' !in line[..i] && line[i] == ' '
    ensures Split(line, ' ')[1] == line[i + 1..i + 1 + m]
    ensures i + 1 + m < |line| ==> line[i + 1 + m] == ' '
  {
    i := FirstIndex(line, ' ');
    SplitAtFirst(line, ' ', i);
    var rest := line[i + 1..];
    m := FirstIndex(rest, ' ');
    SplitAtFirst(rest, ' ', m);
    assert rest[..m] == line[i + 1..i + 1 + m];
  }

  /**
   * The first line ends at `j`, its first word at `i` and its second word,
   * `pinned`, `m` characters later.
   */
  lemma WordsGiveWitness(output: string, pinned: string, j: nat, i: nat, m: nat)
    requires j <= |output| && '\n' !in output[..j] && (j < |output| ==> output[j] == '\n')
    requires i < j && ' ' !in output[..i] && output[i] == ' '
    requires i + 1 + m <= j && output[i + 1..i + 1 + m] == pinned
    requires i + 1 + m < j ==> output[i + 1 + m] == ' '
    ensures ReportsVersion(output, pinned, i)
  {
  }

  /** A banner that reports a one-word version after its first space is accepted. */
  lemma {:induction false} ReportedVersionAccepted(output: string, pinned: string, i: nat)
    requires ' ' !in pinned && '\n' !in pinned
    requires ReportsVersion(output, pinned, i)
    ensures CheckVersion(output, pinned) == Pass
  {
    var j := FirstLineEnd(output);
    WitnessOnFirstLine(output, pinned, j, i);
    SecondWordFrom(output[..j], i, |pinned|);
  }

  /** A line whose first space is at `i`, followed by a word of `n` characters. */
  lemma SecondWordFrom(line: string, i: nat, n: nat)
    requires i + 1 + n <= |line| && ' ' !in line[..i] && line[i] == ' '
    requires ' ' !in line[i + 1..i + 1 + n]
    requires i + 1 + n < |line| ==> line[i + 1 + n] == ' '
    ensures |Split(line, ' ')| >= 2 && Split(line, ' ')[1] == line[i + 1..i + 1 + n]
  {
    SplitAtFirst(line, ' ', i);
    var rest := line[i + 1..];
    assert rest[..n] == line[i + 1..i + 1 + n];
    SplitAtFirst(rest, ' ', n);
  }

  /**
   * The version reported by `ReportsVersion` lies on the first line
   * `output[..j]`, as its second word.
   */
  lemma WitnessOnFirstLine(output: string, pinned: string, j: nat, i: nat)
    requires ' ' !in pinned && '\n' !in pinned
    requires j <= |output| && '\n' !in output[..j] && (j < |output| ==> output[j] == '\n')
    requires ReportsVersion(output, pinned, i)
    ensures i + 1 + |pinned| <= j
    ensures var line := output[..j];
            && ' ' !in line[..i] && line[i] == ' ' && line[i + 1..i + 1 + |pinned|] == pinned
            && (i + 1 + |pinned| < j ==> line[i + 1 + |pinned|] == ' ')
  {
  }

  /**
   * A wrong version is reported as found: it is the one-word second token of
   * the banner's first line, and it differs from the pinned version.
   */
  lemma {:induction false} WrongVersionReported(output: string, pinned: string, found: string)
    requires CheckVersion(output, pinned) == Fail(WrongVersion(found))
    ensures found != pinned && ' ' !in found && '\n' !in found
    ensures exists i :: ReportsVersion(output, found, i)
  {
    var j := FirstLineEnd(output);
    var i, m := SecondWordAt(output[..j]);
    assert found == output[..j][i + 1..i + 1 + m];
    assert '\n' !in found by {
      forall c | c in found ensures c != '\n' {
        var k :| 0 <= k < |found| && found[k] == c;
        assert c == output[..j][i + 1 + k];
      }
    }
    var w := AcceptedVersionPosition(output, found);
  }

  /** The check fails for want of a second word exactly when the first line is one word. */
  lemma {:induction false} VersionTokenMissing(output: string, pinned: string)
    ensures CheckVersion(output, pinned) == Fail(MissingVersionToken) <==> SingleWordFirstLine(output)
  {
    var j := FirstIndex(output, '\n');
    SplitAtFirst(output, '\n', j);
    var line := output[..j];
    assert Split(output, '\n')[0] == line;
    var i := FirstIndex(line, ' ');
    SplitAtFirst(line, ' ', i);
    if i == |line| {
      forall k | 0 <= k < |output| && output[k] == ' ' ensures '\n' in output[..k] {
        assert output[j] in output[..k];
      }
    } else {
      assert |Split(line, ' ')| >= 2;
      assert output[i] == line[i] == ' ';
      assert '\n' !in output[..i] by {
        assert output[..i] == output[..j][..i];
      }
      assert !SingleWordFirstLine(output);
    }
  }

  // ---------------------------------------------------------------------
  // Environment assembly

  /**
   * `_append_envvar`: a variable not yet set is set to `value`; a set one
   * gets `value` appended after a single space. No other variable changes.
   */
  function AppendVar(env: map<string, string>, key: string, value: string): map<string, string>
  {
    if key in env then env[key := env[key] + " " + value] else env[key := value]
  }

  /** What `AppendVar` sets, what it adds, and that it leaves every other variable alone. */
  lemma AppendVarSpec(env: map<string, string>, key: string, value: string)
    ensures AppendVar(env, key, value).Keys == env.Keys + {key}
    ensures key !in env ==> AppendVar(env, key, value)[key] == value
    ensures key in env ==> AppendVar(env, key, value)[key] == env[key] + " " + value
    ensures forall k :: k in env && k != key ==> AppendVar(env, key, value)[k] == env[k]
  {
  }

  /** Two appends to one variable are one append of the space-joined values. */
  lemma AppendVarTwice(env: map<string, string>, key: string, a: string, b: string)
    ensures AppendVar(AppendVar(env, key, a), key, b) == AppendVar(env, key, a + " " + b)
  {
    if key in env {
      assert env[key] + " " + a + " " + b == env[key] + " " + (a + " " + b);
    }
  }

  /** `_set_default_env`: the five appends, in source order. */
  function DefaultEnv(env: map<string, string>): map<string, string>
  {
    var e1 := AppendVar(env, UNBUFFERED_VAR, "1");
    var e2 := AppendVar(e1, FORCE_COLOR_VAR, "yes");
    var e3 := AppendVar(e2, SSH_ARGS_VAR, CONTROL_MASTER);
    var e4 := AppendVar(e3, SSH_ARGS_VAR, CONTROL_PATH);
    AppendVar(e4, SSH_ARGS_VAR, CONTROL_PERSIST)
  }

  /** The managed variable names differ; stated once so that proofs need not compare the literals. */
  lemma VariablesDistinct()
    ensures UNBUFFERED_VAR != FORCE_COLOR_VAR && UNBUFFERED_VAR != SSH_ARGS_VAR && UNBUFFERED_VAR != VAR_DEFAULTS_VAR
    ensures FORCE_COLOR_VAR != SSH_ARGS_VAR && FORCE_COLOR_VAR != VAR_DEFAULTS_VAR && SSH_ARGS_VAR != VAR_DEFAULTS_VAR
  {
  }

  /** The value a variable has after `value` is appended to it in `env`. */
  function Extended(env: map<string, string>, key: string, value: string): string
  {
    (if key in env then env[key] + " " else "") + value
  }

  /**
   * After the defaults, the SSH options hold the three control-socket
   * options in order (after whatever was there), output is unbuffered and
   * coloured. `DefaultEnvKeys` states that no other variable changes.
   */
  lemma {:induction false} DefaultEnvContents(env: map<string, string>)
    ensures DefaultEnv(env)[SSH_ARGS_VAR] == Extended(env, SSH_ARGS_VAR, DEFAULT_SSH_ARGS)
    ensures DefaultEnv(env)[UNBUFFERED_VAR] == Extended(env, UNBUFFERED_VAR, "1")
    ensures DefaultEnv(env)[FORCE_COLOR_VAR] == Extended(env, FORCE_COLOR_VAR, "yes")
  {
    var e1 := AppendVar(env, UNBUFFERED_VAR, "1");
    var e2 := AppendVar(e1, FORCE_COLOR_VAR, "yes");
    VariablesDistinct();
    AppendVarTwice(e2, SSH_ARGS_VAR, CONTROL_MASTER, CONTROL_PATH);
    AppendVarTwice(e2, SSH_ARGS_VAR, CONTROL_MASTER + " " + CONTROL_PATH, CONTROL_PERSIST);
    assert DefaultEnv(env) == AppendVar(e2, SSH_ARGS_VAR, DEFAULT_SSH_ARGS);
    AppendVarSpec(env, UNBUFFERED_VAR, "1");
    AppendVarSpec(e1, FORCE_COLOR_VAR, "yes");
    AppendVarSpec(e2, SSH_ARGS_VAR, DEFAULT_SSH_ARGS);
  }

  /** The defaults set exactly three variables and leave every other one as it was. */
  lemma DefaultEnvKeys(env: map<string, string>)
    ensures DefaultEnv(env).Keys == env.Keys + {UNBUFFERED_VAR, FORCE_COLOR_VAR, SSH_ARGS_VAR}
    ensures forall k :: k in env && k != UNBUFFERED_VAR && k != FORCE_COLOR_VAR && k != SSH_ARGS_VAR ==>
              DefaultEnv(env)[k] == env[k]
  {
  }

  /**
   * `os.path.join(dir, name)` (POSIX): an absolute `name` replaces `dir`;
   * otherwise a `/` is put between them unless `dir` is empty or already
   * ends with one.
   */
  function PathJoin(dir: string, name: string): string
  {
    if name != [] && name[0] == '/' then name
    else if dir == [] || dir[|dir| - 1] == '/' then dir + name
    else dir + "/" + name
  }

  /**
   * A joined path ends with the name; a relative name is placed below a
   * non-empty directory, with a `/` inserted only when the directory does not
   * already end with one.
   */
  lemma PathJoinShape(dir: string, name: string)
    ensures var path := PathJoin(dir, name);
            && |path| >= |name| && path[|path| - |name|..] == name
            && (name != [] && name[0] == '/' ==> path == name)
            && (dir == [] ==> path == name)
            && ((name == [] || name[0] != '/') && dir != [] ==>
                  && |path| == |dir| + (if dir[|dir| - 1] == '/' then 0 else 1) + |name|
                  && path[..|dir|] == dir && path[|path| - |name| - 1] == '/')
  {
  }

  function InventoryPath(args: Args): string { PathJoin(args.environment, "hosts") }
  function VarDefaultsPath(args: Args): string { PathJoin(args.environment, "../defaults.yml") }
  function SshConfigPath(args: Args): string { PathJoin(args.environment, "ssh_config") }

  /** The appends `run` makes once the environment and its inventory are found. */
  function ConfiguredEnv(env: map<string, string>, args: Args, isFile: string -> bool): map<string, string>
  {
    var e1 := AppendIf(env, isFile(VarDefaultsPath(args)), VAR_DEFAULTS_VAR, VarDefaultsPath(args));
    var e2 := AppendIf(e1, isFile(SshConfigPath(args)), SSH_ARGS_VAR, "-F " + SshConfigPath(args));
    AppendIf(e2, args.ursulaForward, SSH_ARGS_VAR, "-o ForwardAgent=yes")
  }

  /** An append made only when `cond` holds. */
  function AppendIf(env: map<string, string>, cond: bool, key: string, value: string): map<string, string>
  {
    if cond then AppendVar(env, key, value) else env
  }

  // ---------------------------------------------------------------------
  // Command line

  /**
   * `_run_ansible`'s command: the tool, the inventory, the remote user, the
   * module path and the playbook; `--sudo` when asked; then the extra
   * arguments unchanged and in order.
   */
  function AnsibleCommand(inventory: string, playbook: string, user: string, modulePath: string,
                          sudo: bool, extraArgs: seq<string>): (cmd: seq<string>)
    ensures |cmd| == 8 + (if sudo then 1 else 0) + |extraArgs|
    ensures cmd[..8] == ["ansible-playbook", "--inventory-file", inventory, "--user", user,
                         "--module-path", modulePath, playbook]
    ensures sudo ==> cmd[8] == "--sudo"
    ensures cmd[|cmd| - |extraArgs|..] == extraArgs
  {
    ["ansible-playbook", "--inventory-file", inventory, "--user", user, "--module-path", modulePath, playbook]
    + (if sudo then ["--sudo"] else []) + extraArgs
  }

  /** The pass-through arguments after `run` has added the test-mode flags. */
  function RunExtraArgs(args: Args, extraArgs: seq<string>): seq<string>
  {
    extraArgs + (if args.ursulaTest then TEST_ARGS else [])
  }

  /**
   * The command `run` launches: the inventory inside the environment, user
   * `root`, modules from `./library`, no `--sudo`, the caller's arguments,
   * and in test mode the syntax-check and list-tasks flags last.
   */
  function RunCommand(args: Args, extraArgs: seq<string>): (cmd: seq<string>)
    ensures |cmd| == 8 + |extraArgs| + (if args.ursulaTest then 2 else 0)
    ensures cmd[..8] == ["ansible-playbook", "--inventory-file", InventoryPath(args), "--user", "root",
                         "--module-path", "./library", args.playbook]
    ensures cmd[8..8 + |extraArgs|] == extraArgs
    ensures args.ursulaTest ==> cmd[|cmd| - 2..] == ["--syntax-check", "--list-tasks"]
    ensures !args.ursulaTest ==> cmd[8..] == extraArgs
  {
    var cmd := AnsibleCommand(InventoryPath(args), args.playbook, "root", "./library", false,
                              RunExtraArgs(args, extraArgs));
    assert cmd[8..] == RunExtraArgs(args, extraArgs);
    cmd
  }

  /** The outcome of starting the child: its return code, or the exception. */
  function Launched(returnCode: Option<int>): Result<int, Error>
  {
    match returnCode
    case None => Failure(LaunchFailed)
    case Some(rc) => Success(rc)
  }

  // ---------------------------------------------------------------------
  // run and main, as functions of the state before them

  /** `run`'s two checks: the environment exists and holds an inventory file. */
  predicate InventoryFound(args: Args, pathExists: string -> bool, isFile: string -> bool)
  {
    pathExists(args.environment) && pathExists(InventoryPath(args)) && isFile(InventoryPath(args))
  }

  /** The environment after `run`: the defaults, then the later appends if both checks pass. */
  function RunEnviron(environ: map<string, string>, args: Args, pathExists: string -> bool,
                      isFile: string -> bool): map<string, string>
  {
    if InventoryFound(args, pathExists, isFile) then ConfiguredEnv(DefaultEnv(environ), args, isFile)
    else DefaultEnv(environ)
  }

  /** The environment, the pass-through arguments and the result after `run`. */
  datatype RunState = RunState(environ: map<string, string>, extraArgs: seq<string>, result: Result<int, Error>)

  function RunSpec(environ: map<string, string>, args: Args, extraArgs: seq<string>,
                   pathExists: string -> bool, isFile: string -> bool,
                   exec: (seq<string>, map<string, string>) -> Option<int>): RunState
  {
    var after := RunEnviron(environ, args, pathExists, isFile);
    if !pathExists(args.environment) then
      RunState(after, extraArgs, Failure(EnvironmentMissing(args.environment)))
    else if !pathExists(InventoryPath(args)) || !isFile(InventoryPath(args)) then
      RunState(after, extraArgs, Failure(InventoryMissing(InventoryPath(args))))
    else
      RunState(after, RunExtraArgs(args, extraArgs), Launched(exec(RunCommand(args, extraArgs), after)))
  }

  /** `main` after parsing: the version check first, then `run`. */
  function MainSpec(environ: map<string, string>, args: Args, extraArgs: seq<string>,
                    versionProbe: Option<string>, pathExists: string -> bool, isFile: string -> bool,
                    exec: (seq<string>, map<string, string>) -> Option<int>): RunState
  {
    match ProbeCheck(versionProbe)
    case Fail(e) => RunState(environ, extraArgs, Failure(e))
    case Pass => RunSpec(environ, args, extraArgs, pathExists, isFile, exec)
  }

  /** The argument `main` hands to `sys.exit`. */
  function ExitCode(result: Result<int, Error>): int
  {
    match result
    case Success(rc) => rc
    case Failure(_) => -1
  }

  // ---------------------------------------------------------------------
  // Properties of run and main

  /**
   * A missing environment or inventory stops `run` with an error before any
   * command is built or launched, after the default appends have been made.
   */
  lemma RunStopsEarly(environ: map<string, string>, args: Args, extraArgs: seq<string>,
                      pathExists: string -> bool, isFile: string -> bool,
                      exec: (seq<string>, map<string, string>) -> Option<int>,
                      otherExec: (seq<string>, map<string, string>) -> Option<int>)
    requires !InventoryFound(args, pathExists, isFile)
    ensures RunSpec(environ, args, extraArgs, pathExists, isFile, exec).result.Failure?
    ensures RunSpec(environ, args, extraArgs, pathExists, isFile, exec).environ == DefaultEnv(environ)
    ensures RunSpec(environ, args, extraArgs, pathExists, isFile, exec).extraArgs == extraArgs
    ensures RunSpec(environ, args, extraArgs, pathExists, isFile, exec)
         == RunSpec(environ, args, extraArgs, pathExists, isFile, otherExec)
  {
  }

  /**
   * The SSH options a successful `run` hands to the tool: what was set
   * before, the three defaults, `-F <environment>/ssh_config` only if that
   * file exists, then agent forwarding only if asked for, in this order.
   */
  lemma {:induction false} RunSshArgs(environ: map<string, string>, args: Args,
                                      pathExists: string -> bool, isFile: string -> bool)
    requires InventoryFound(args, pathExists, isFile)
    ensures RunEnviron(environ, args, pathExists, isFile)[SSH_ARGS_VAR]
         == Extended(environ, SSH_ARGS_VAR, DEFAULT_SSH_ARGS)
            + (if isFile(SshConfigPath(args)) then " -F " + SshConfigPath(args) else "")
            + (if args.ursulaForward then " -o ForwardAgent=yes" else "")
  {
    DefaultEnvContents(environ);
    DefaultEnvKeys(environ);
    ConfiguredSshArgs(DefaultEnv(environ), args, isFile);
  }

  /** The appends after the checks add to the SSH options in order. */
  lemma ConfiguredSshArgs(env: map<string, string>, args: Args, isFile: string -> bool)
    requires SSH_ARGS_VAR in env
    ensures ConfiguredEnv(env, args, isFile)[SSH_ARGS_VAR]
         == env[SSH_ARGS_VAR]
            + (if isFile(SshConfigPath(args)) then " -F " + SshConfigPath(args) else "")
            + (if args.ursulaForward then " -o ForwardAgent=yes" else "")
  {
    var config := SshConfigPath(args);
    var e1 := AppendIf(env, isFile(VarDefaultsPath(args)), VAR_DEFAULTS_VAR, VarDefaultsPath(args));
    var e2 := AppendIf(e1, isFile(config), SSH_ARGS_VAR, "-F " + config);
    VariablesDistinct();
    AppendIfElsewhere(env, isFile(VarDefaultsPath(args)), VAR_DEFAULTS_VAR, VarDefaultsPath(args), SSH_ARGS_VAR);
    AppendIfValue(e1, isFile(config), SSH_ARGS_VAR, "-F " + config);
    AppendIfValue(e2, args.ursulaForward, SSH_ARGS_VAR, "-o ForwardAgent=yes");
    assert " " + ("-F " + config) == " -F " + config;
    assert " " + "-o ForwardAgent=yes" == " -o ForwardAgent=yes";
  }

  /** A conditional append to a set variable adds a space and the value only when asked. */
  lemma AppendIfValue(env: map<string, string>, cond: bool, key: string, value: string)
    requires key in env
    ensures key in AppendIf(env, cond, key, value)
    ensures AppendIf(env, cond, key, value)[key] == env[key] + (if cond then " " + value else "")
  {
    if cond {
      assert env[key] + " " + value == env[key] + (" " + value);
    } else {
      assert env[key] + "" == env[key];
    }
  }

  /** A conditional append leaves every other variable alone. */
  lemma AppendIfElsewhere(env: map<string, string>, cond: bool, key: string, value: string, other: string)
    requires other in env && other != key
    ensures other in AppendIf(env, cond, key, value)
    ensures AppendIf(env, cond, key, value)[other] == env[other]
  {
  }

  /** The appends after the checks touch only the SSH options and the defaults-file variable. */
  lemma ConfiguredKeys(env: map<string, string>, args: Args, isFile: string -> bool)
    ensures ConfiguredEnv(env, args, isFile).Keys <= env.Keys + {SSH_ARGS_VAR, VAR_DEFAULTS_VAR}
    ensures forall k :: k in env && k != SSH_ARGS_VAR && k != VAR_DEFAULTS_VAR ==>
              k in ConfiguredEnv(env, args, isFile) && ConfiguredEnv(env, args, isFile)[k] == env[k]
    ensures VAR_DEFAULTS_VAR in ConfiguredEnv(env, args, isFile) <==> VAR_DEFAULTS_VAR in env || isFile(VarDefaultsPath(args))
  {
    VariablesDistinct();
  }

  /**
   * The appends after the checks give the defaults-file variable the joined
   * `../defaults.yml` path, appended to any earlier value, when that file
   * exists, and leave it alone otherwise.
   */
  lemma ConfiguredVarDefaults(env: map<string, string>, args: Args, isFile: string -> bool)
    ensures isFile(VarDefaultsPath(args)) ==>
              ConfiguredEnv(env, args, isFile)[VAR_DEFAULTS_VAR] == Extended(env, VAR_DEFAULTS_VAR, VarDefaultsPath(args))
    ensures !isFile(VarDefaultsPath(args)) && VAR_DEFAULTS_VAR in env ==>
              ConfiguredEnv(env, args, isFile)[VAR_DEFAULTS_VAR] == env[VAR_DEFAULTS_VAR]
  {
    var path := VarDefaultsPath(args);
    var config := SshConfigPath(args);
    var e1 := AppendIf(env, isFile(path), VAR_DEFAULTS_VAR, path);
    var e2 := AppendIf(e1, isFile(config), SSH_ARGS_VAR, "-F " + config);
    VariablesDistinct();
    if isFile(path) || VAR_DEFAULTS_VAR in env {
      AppendIfElsewhere(e1, isFile(config), SSH_ARGS_VAR, "-F " + config, VAR_DEFAULTS_VAR);
      AppendIfElsewhere(e2, args.ursulaForward, SSH_ARGS_VAR, "-o ForwardAgent=yes", VAR_DEFAULTS_VAR);
    }
  }

  /**
   * A `run` touches only the four variables it manages, and appends the
   * defaults file's path to its variable only when both checks pass and the
   * file exists.
   */
  lemma {:induction false} RunTouchesOnlyItsVariables(environ: map<string, string>, args: Args,
                                                      pathExists: string -> bool, isFile: string -> bool)
    ensures var after := RunEnviron(environ, args, pathExists, isFile);
            && after.Keys <= environ.Keys + {UNBUFFERED_VAR, FORCE_COLOR_VAR, SSH_ARGS_VAR, VAR_DEFAULTS_VAR}
            && (forall k :: (k in environ && k != UNBUFFERED_VAR && k != FORCE_COLOR_VAR && k != SSH_ARGS_VAR
                               && k != VAR_DEFAULTS_VAR) ==> k in after && after[k] == environ[k])
            && (VAR_DEFAULTS_VAR in after <==>
                  VAR_DEFAULTS_VAR in environ
                  || (InventoryFound(args, pathExists, isFile) && isFile(VarDefaultsPath(args))))
            && (InventoryFound(args, pathExists, isFile) && isFile(VarDefaultsPath(args)) ==>
                  after[VAR_DEFAULTS_VAR] == Extended(environ, VAR_DEFAULTS_VAR, VarDefaultsPath(args)))
            && ((!(InventoryFound(args, pathExists, isFile) && isFile(VarDefaultsPath(args)))
                 && VAR_DEFAULTS_VAR in environ) ==> after[VAR_DEFAULTS_VAR] == environ[VAR_DEFAULTS_VAR])
  {
    VariablesDistinct();
    DefaultEnvKeys(environ);
    ConfiguredKeys(DefaultEnv(environ), args, isFile);
    ConfiguredVarDefaults(DefaultEnv(environ), args, isFile);
  }

  /** `main` exits with -1 whenever anything on its way raises. */
  lemma {:induction false} MainFailsWithMinusOne(environ: map<string, string>, args: Args, extraArgs: seq<string>,
                                                 versionProbe: Option<string>, pathExists: string -> bool,
                                                 isFile: string -> bool,
                                                 exec: (seq<string>, map<string, string>) -> Option<int>)
    requires || versionProbe.None?
             || (versionProbe.Some? && forall i :: !ReportsVersion(versionProbe.value, ANSIBLE_VERSION, i))
             || !InventoryFound(args, pathExists, isFile)
             || exec(RunCommand(args, extraArgs), RunEnviron(environ, args, pathExists, isFile)).None?
    ensures ExitCode(MainSpec(environ, args, extraArgs, versionProbe, pathExists, isFile, exec).result) == -1
  {
    if versionProbe.Some? {
      AnsibleVersionAccepted(versionProbe.value);
    }
  }

  /**
   * When the banner reports the pinned version, the inventory is found and
   * the child starts, `main` exits with the child's return code, and the
   * pass-through arguments end with the test-mode flags exactly in test mode.
   */
  lemma {:induction false} MainExitsWithChildCode(environ: map<string, string>, args: Args, extraArgs: seq<string>,
                                                  output: string, i: nat, pathExists: string -> bool,
                                                  isFile: string -> bool,
                                                  exec: (seq<string>, map<string, string>) -> Option<int>, rc: int)
    requires ReportsVersion(output, ANSIBLE_VERSION, i)
    requires InventoryFound(args, pathExists, isFile)
    requires exec(RunCommand(args, extraArgs), RunEnviron(environ, args, pathExists, isFile)) == Some(rc)
    ensures ExitCode(MainSpec(environ, args, extraArgs, Some(output), pathExists, isFile, exec).result) == rc
    ensures MainSpec(environ, args, extraArgs, Some(output), pathExists, isFile, exec).extraArgs
         == extraArgs + (if args.ursulaTest then TEST_ARGS else [])
  {
    AnsibleVersionAccepted(output);
  }

  // ---------------------------------------------------------------------
  // The imperative program

  /** The argument list `main` gets back from the parser, extended in place. */
  class ArgList {
    var items: seq<string>

    constructor (items: seq<string>)
      ensures this.items == items
    {
      this.items := items;
    }

    /** `list += more`. */
    method Extend(more: seq<string>)
      modifies this
      ensures items == old(items) + more
    {
      items := items + more;
    }
  }

  /** The wrapper's process: its environment, which the tool inherits. */
  class Process {
    var environ: map<string, string>

    constructor (environ: map<string, string>)
      ensures this.environ == environ
    {
      this.environ := environ;
    }

    /** `_append_envvar(key, value)`. */
    method AppendEnvvar(key: string, value: string)
      modifies this
      ensures environ == AppendVar(old(environ), key, value)
    {
      if key in environ {
        environ := environ[key := environ[key] + " " + value];
      } else {
        environ := environ[key := value];
      }
    }

    /** `_set_default_env()`. */
    method SetDefaultEnv()
      modifies this
      ensures environ == DefaultEnv(old(environ))
    {
      AppendEnvvar(UNBUFFERED_VAR, "1");
      AppendEnvvar(FORCE_COLOR_VAR, "yes");
      AppendEnvvar(SSH_ARGS_VAR, CONTROL_MASTER);
      AppendEnvvar(SSH_ARGS_VAR, CONTROL_PATH);
      AppendEnvvar(SSH_ARGS_VAR, CONTROL_PERSIST);
    }

    /**
     * `_run_ansible(...)`: builds the command and starts the tool with a
     * copy of the current environment.
     */
    method RunAnsible(inventory: string, playbook: string, user: string, modulePath: string,
                      sudo: bool, extraArgs: seq<string>,
                      exec: (seq<string>, map<string, string>) -> Option<int>)
      returns (r: Result<int, Error>)
      ensures r == Launched(exec(AnsibleCommand(inventory, playbook, user, modulePath, sudo, extraArgs), environ))
    {
      var command := ["ansible-playbook", "--inventory-file", inventory, "--user", user,
                      "--module-path", modulePath, playbook];
      if sudo {
        command := command + ["--sudo"];
      }
      command := command + extraArgs;
      r := Launched(exec(command, environ));
    }

    /** `run(args, extra_args)`. */
    method Run(args: Args, extraArgs: ArgList, pathExists: string -> bool, isFile: string -> bool,
               exec: (seq<string>, map<string, string>) -> Option<int>)
      returns (r: Result<int, Error>)
      modifies this, extraArgs
      ensures var s := RunSpec(old(environ), args, old(extraArgs.items), pathExists, isFile, exec);
              environ == s.environ && extraArgs.items == s.extraArgs && r == s.result
    {
      SetDefaultEnv();
      if !pathExists(args.environment) {
        return Failure(EnvironmentMissing(args.environment));
      }
      var inventory := PathJoin(args.environment, "hosts");
      if !pathExists(inventory) || !isFile(inventory) {
        return Failure(InventoryMissing(inventory));
      }
      var varDefaultsFile := PathJoin(args.environment, "../defaults.yml");
      if isFile(varDefaultsFile) {
        AppendEnvvar(VAR_DEFAULTS_VAR, varDefaultsFile);
      }
      var sshConfigFile := PathJoin(args.environment, "ssh_config");
      if isFile(sshConfigFile) {
        AppendEnvvar(SSH_ARGS_VAR, "-F " + sshConfigFile);
      }
      if args.ursulaForward {
        AppendEnvvar(SSH_ARGS_VAR, "-o ForwardAgent=yes");
      }
      if args.ursulaTest {
        extraArgs.Extend(["--syntax-check", "--list-tasks"]);
      }
      r := RunAnsible(inventory, args.playbook, "root", "./library", false, extraArgs.items, exec);
    }

    /** `main()` after argument parsing; returns what it passes to `sys.exit`. */
    method EntryPoint(args: Args, extraArgs: ArgList, versionProbe: Option<string>,
                      pathExists: string -> bool, isFile: string -> bool,
                      exec: (seq<string>, map<string, string>) -> Option<int>)
      returns (exitCode: int)
      modifies this, extraArgs
      ensures var s := MainSpec(old(environ), args, old(extraArgs.items), versionProbe, pathExists, isFile, exec);
              environ == s.environ && extraArgs.items == s.extraArgs && exitCode == ExitCode(s.result)
    {
      var check := ProbeCheck(versionProbe);
      if check.Fail? {
        return -1;
      }
      var r := Run(args, extraArgs, pathExists, isFile, exec);
      match r {
        case Success(rc) => exitCode := rc;
        case Failure(_) => exitCode := -1;
      }
    }
  }
}

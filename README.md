# ursula-cli shell wrapper, modelled in Dafny

`ursula` is a small command-line wrapper around `ansible-playbook`
(`ursula_cli/shell.py`). It runs in this order:

1. It checks that the installed tool reports the pinned version
   `1.7.2-bbg`. That version is the second space-separated word of the
   first line of `ansible-playbook --version`.
2. It appends default SSH control-socket options, unbuffered output and
   forced colour to the process environment.
3. It checks that the chosen environment path exists and that
   `<environment>/hosts` exists and is a regular file (the inventory).
4. It adds the variable-defaults file and the environment's `ssh_config`
   when those files exist, and agent forwarding when asked for.
5. In test mode it adds `--syntax-check --list-tasks` to the pass-through
   arguments.
6. It launches the tool and exits with the child's return code, or with -1
   if any step raised.

The project has two modules:

- `PyStr` (`pystr.dfy`) holds Python's `str.split` for a one-character
  separator, with its inverse `Join`. The version check relies on these.
- `Shell` (`shell.dfy`) holds the wrapper itself:
  - **Process environment.** `os.environ` is the field `environ` of the
    class `Shell.Process`. Its methods update it in place, as the source
    does.
  - **Pass-through arguments.** These are an `ArgList`, which `Run`
    extends in place.
  - **Specification functions.** `AppendVar`, `DefaultEnv`, `RunEnviron`,
    `RunSpec` and `MainSpec` describe the state after each step. The
    methods that change the environment or run a step of `main` are tied to
    one of them by their `ensures`. `RunAnsible` is tied to `AnsibleCommand`
    and `Launched`, and `ArgList.Extend` to sequence concatenation. Lemmas
    prove the wrapper's promises about these functions.
  - **The outside world as parameters:**
    - `pathExists` and `isFile` stand for `os.path.exists` and
      `os.path.isfile`;
    - `versionProbe` is the banner printed by `ansible-playbook --version`,
      or `None` when that command failed;
    - `exec` maps a command line and an environment to the child's return
      code, or to `None` when the child could not be started.
  - **Exceptions.** Each exception the source raises is a case of
    `Shell.Error`, and `main` maps every one of them to exit code -1.

## Model

| member | source | states |
|---|---|---|
| PyStr.Split | ursula_cli/shell.py:41-42 | `str.split(sep)` always yields at least one field, and no field contains the separator |
| PyStr.FirstIndex | ursula_cli/shell.py:41-42 | the index of the first occurrence of a character, or the length when it is absent; nothing before it is that character |
| PyStr.SplitAtFirst | ursula_cli/shell.py:41-42 | the first field of a split is everything before the first separator, and the remaining fields are those of the text after it |
| PyStr.JoinSplit | ursula_cli/shell.py:41-42 | joining the fields of a split with the separator gives back the original string |
| PyStr.SplitJoin | ursula_cli/shell.py:41-42 | splitting a join of one or more separator-free fields gives back the fields |
| Shell.CheckVersion | ursula_cli/shell.py:38-47 | the check fails only for a missing second word or a wrong one, and a reported wrong version differs from the pinned one |
| Shell.CheckAnsibleVersion | ursula_cli/shell.py:38-47 | the check against the pinned `1.7.2-bbg` fails only for a missing second word, or for a second word that differs from `1.7.2-bbg`; `WrongVersionReported` shows the reported word is the banner's |
| Shell.WrongVersionReported | ursula_cli/shell.py:41-47 | a wrong-version failure reports the word actually found: a one-word token, different from the pinned version, standing right after the first space of the banner's first line |
| Shell.ProbeCheck | ursula_cli/shell.py:38-47 | the version check fails with the command error if and only if `ansible-playbook --version` failed; otherwise it is the banner check on the command's output |
| Shell.VersionAccepted | ursula_cli/shell.py:41-43 | for a version without spaces or line breaks, the check passes if and only if the first line's second word, delimited by spaces, is exactly that version |
| Shell.AnsibleVersionAccepted | ursula_cli/shell.py:25-47 | the banner check passes if and only if the first line's second word is `1.7.2-bbg` |
| Shell.AcceptedVersionPosition | ursula_cli/shell.py:41-43 | a passing banner has the pinned version right after the first space of its first line |
| Shell.ReportedVersionAccepted | ursula_cli/shell.py:41-43 | a banner whose first line has the pinned version right after its first space passes the check |
| Shell.VersionTokenMissing | ursula_cli/shell.py:41-42 | the check fails because the second word is missing if and only if no space occurs before the first line break. Python raises IndexError there |
| Shell.FirstLineEnd | ursula_cli/shell.py:41 | the first line of the banner is the text before its first line break |
| Shell.SecondWordAt | ursula_cli/shell.py:42 | in a line of two or more words, the second word starts right after the first space and ends at the next space or at the end of the line |
| Shell.AppendVarSpec | ursula_cli/shell.py:50-54 | an unset variable is set to the value; a set one gets a space and the value appended; every other variable keeps its value; exactly that key is added |
| Shell.AppendVarTwice | ursula_cli/shell.py:50-54 | two appends to one variable equal one append of the two values joined by a space |
| Shell.Process.AppendEnvvar | ursula_cli/shell.py:50-54 | the method updates the process environment exactly as `AppendVar` describes |
| Shell.DefaultEnvContents | ursula_cli/shell.py:57-63 | after the defaults, the SSH options end with the three control-socket options in source order, after any earlier value; output is unbuffered and colour is forced |
| Shell.DefaultEnvKeys | ursula_cli/shell.py:57-63 | the defaults add exactly the three variables and leave every other variable unchanged |
| Shell.Process.SetDefaultEnv | ursula_cli/shell.py:57-63 | the method leaves the environment as `DefaultEnv` of the old one |
| Shell.PathJoinShape | ursula_cli/shell.py:101-110 | `os.path.join`: the path ends with the name; an absolute name replaces the directory; an empty directory gives the name itself; a relative name goes under a non-empty directory with a `/` just before it; its exact length shows that a `/` is inserted only when the directory does not already end with one, and nothing else is added |
| Shell.AnsibleCommand | ursula_cli/shell.py:65-80 | the command is the tool, inventory, user, module path and playbook, then `--sudo` when asked, then the extra arguments last; its length counts all of these |
| Shell.Process.RunAnsible | ursula_cli/shell.py:65-92 | the tool is launched with that command and the current environment; the result is its return code, or a launch failure |
| Shell.RunCommand | ursula_cli/shell.py:117-120 | `run`'s command uses the environment's `hosts` file, user `root`, `./library` and no `--sudo`, then the caller's arguments; in test mode it ends with `--syntax-check --list-tasks` |
| Shell.Process.Run | ursula_cli/shell.py:95-121 | the method leaves the environment, the pass-through arguments and the result as `RunSpec` gives them from the old state |
| Shell.RunStopsEarly | ursula_cli/shell.py:96-103 | a missing environment or inventory is a failure; the defaults have already been applied; the arguments are unchanged; nothing is launched, so the result does not depend on the child |
| Shell.RunSshArgs | ursula_cli/shell.py:110-115 | after a successful `run`, the SSH options are the earlier value, the three defaults, `-F <environment>/ssh_config` only when that file exists, and `-o ForwardAgent=yes` only when forwarding was asked for, in that order |
| Shell.ConfiguredSshArgs | ursula_cli/shell.py:110-115 | the appends after the checks add the config-file and forwarding options to the SSH options, each only when its condition holds |
| Shell.ConfiguredKeys | ursula_cli/shell.py:105-115 | the appends after the checks touch only the SSH options and the defaults-file variable, and the latter exists afterwards if and only if it existed before or the file exists |
| Shell.ConfiguredVarDefaults | ursula_cli/shell.py:105-108 | when the defaults file exists, its joined path is appended to the defaults-file variable after any earlier value; otherwise the variable keeps its value |
| Shell.RunTouchesOnlyItsVariables | ursula_cli/shell.py:95-115 | `run` changes no variable other than its four, and sets the defaults-file variable only when both checks pass and the file exists, unless it was already set. When both checks pass and the file exists, the variable's value is the old one extended by `<environment>/../defaults.yml`; otherwise it keeps its old value |
| Shell.MainFailsWithMinusOne | ursula_cli/shell.py:140-150 | `main` exits with -1 in each of these cases: the version command fails, the banner does not report the pinned version, the environment or inventory is missing, or the child cannot be started |
| Shell.MainExitsWithChildCode | ursula_cli/shell.py:140-147 | when the version matches, the inventory is found and the child starts, `main` exits with the child's return code, and the pass-through arguments gain the test flags exactly in test mode |
| Shell.Process.EntryPoint | ursula_cli/shell.py:140-150 | the method leaves the environment, the arguments and the exit code as `MainSpec` and `ExitCode` give them: the version check first, then `run` |
| Shell.ArgList.Extend | ursula_cli/shell.py:117-118 | `extra_args +=` extends the caller's list in place, with the new items after the old ones |

## Left out

- Argument parsing (ursula_cli/shell.py:125-138) is not modelled. `Args` holds the parsed values, and `ArgList` holds the unrecognised arguments that `parse_known_args` returns.
- `--ursula-debug` and all logging (ursula_cli/shell.py:28-35, 82-83, 141-144, 149) are left out. They only choose a log level and write messages, so they affect neither the state nor the exit code. An exception raised by logging itself is not modelled.
- Shell.Process.RunAnsible: streaming the child's output line by line and waiting for it (ursula_cli/shell.py:84-91) are I/O. The child is the `exec` parameter, and its return code is taken as given.
- Shell.Process.RunAnsible: the child receives a copy of the environment. The model passes the map value, which is already a copy, so later changes cannot reach it.
- The banner command (ursula_cli/shell.py:39-40) is the `versionProbe` parameter. A command that exits non-zero is `None`.
- `pathExists`, `isFile` and `exec` are independent functions. The model does not require `isFile(p)` to imply `pathExists(p)`, and it does not model a file system that changes between the checks.
- Shell.ExitCode: the value is what `main` passes to `sys.exit`. The operating system keeps only the low 8 bits (-1 becomes 255), which the model does not include. A child that returns -1 is indistinguishable from a failure.
- Shell.AnsibleCommand: when `sudo` is false, position 8 holds the first extra argument. So "position 8 is `--sudo` if and only if `sudo`" holds only when the extra arguments do not start with `--sudo`. The contract states `sudo ==> cmd[8] == "--sudo"`, and it gives the exact length and the suffix for both cases.
- Exception messages are not modelled. An `Error` case records only the kind of failure and the offending path or version.

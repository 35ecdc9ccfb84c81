# gitleaks-hooks: platform-to-release resolution

This project models, in Dafny, how two pre-commit installer scripts pick
the gitleaks release asset to download and what they do with it. The
scripts are `pre-commit-hook-implementation.py` and
`my_pre_commit_with_windows.py`. The model covers:

- **OS detection** (`get_os_type`). "Linux" and "Darwin" pass through
  unchanged. "Windows" and "MINGW" become "Windows". Any other name raises.
  This is in `Platform`.
- **The release table.** A structured reference maps (OS family,
  architecture) to the download URL `…/download/v{V}/gitleaks_{V}_{os}_{tok}{ext}`
  and fails otherwise. This is in `Release`. Each script's literal nested
  `if` chain is modelled branch by branch (`HookScript.ResolveUrl`,
  `WindowsScript.UrlTable`) and proved equal to the reference on every input.
- **What happens once the URL is known** (`Installer`). The script changes
  into the destination directory and downloads the archive to
  `gitleaks.tar.gz` or `gitleaks.zip`. It unpacks it with the matching
  format, deletes the archive and runs `chmod 0o755` on `gitleaks`. It then
  runs `./gitleaks version`, applies the enable-flag rule and returns to the
  original directory. These external actions are recorded as a trace of
  `Step` values. Which action raises, if any, is an input (`Host.fault`):
  curl, the unpacking, `os.remove`, `os.chmod` or the launch of the binary.
  None of them is caught, so the trace stops at the action that raises, the
  process exits with status 1, the configuration is untouched, and the
  process ends inside the destination directory.
- **The enable-flag rule** (`GitConfig`). The script reads
  `devsecops.gitleaks.enabled`. When the output, stripped of ASCII
  whitespace, is empty, it writes `true`. It never overwrites a non-blank
  value; a value of only whitespace reads back as unset and is replaced.
- **Agreement between the two scripts** (`WindowsScript`). The second
  script detects the OS and machine inside `install_gitleaks`. The first
  script detects them in `main` and passes them in. The second script's
  `install_gitleaks` is proved to give the same URL, the same failures, the
  same steps and the same final configuration as the first script's
  detection followed by its `install_gitleaks`. The claim is about
  `install_gitleaks` only; the two `main` functions differ (see below).
- **The install block of the first script's `main`** (`HookScript`). After
  the hooks repository is cloned into the `gitleaks-hooks` directory
  (`devsecops_dir`, `.git/hooks/gitleaks-hooks`), `os.makedirs` is
  called on that same directory without `exist_ok`, so it raises before
  `install_gitleaks` is reached. Both this code and the evidently intended
  version are modelled; see "## Findings".

Failures are values of `Outcomes.Abort`. Every failure exits with status 1,
whether it comes from `sys.exit(1)` or from an uncaught exception.

## Model

| member | source | states |
|---|---|---|
| Platform.GetOsType | pre-commit-hook-implementation.py:12-19 | succeeds exactly for "Linux", "Darwin", "Windows", "MINGW"; Linux/Darwin map to themselves, Windows/MINGW to "Windows"; the result is always a name the URL table knows; any other name fails with that name |
| Platform.ParseOs | pre-commit-hook-implementation.py:26-42 | the table's OS tests accept exactly "Linux", "Darwin", "Windows", and the family recognised has that name |
| Release.ParseArch | pre-commit-hook-implementation.py:27-45 | a machine name is accepted for a family exactly when it is that family's name for some architecture ("aarch64" on Linux, "arm64" elsewhere, "x86_64" everywhere) |
| Release.SixSupportedPairs | pre-commit-hook-implementation.py:26-52 | exactly six (OS, machine) pairs have a release asset |
| Release.Lookup | pre-commit-hook-implementation.py:26-52 | the table as data: OS name first, then machine name; its contracts are carried by `Release.LookupSucceedsIffSupported`, `Release.LookupErrors`, `Release.LookupShape` and `Release.LookupInjective` |
| Release.LookupSucceedsIffSupported | pre-commit-hook-implementation.py:26-52 | the reference table resolves exactly the six supported pairs |
| Release.LookupErrors | pre-commit-hook-implementation.py:26-52 | an unknown OS fails with the OS name; a known OS with an unknown machine fails with the machine name |
| Release.LookupShape | pre-commit-hook-implementation.py:24-46 | every resolved URL is the release base for V, then `/gitleaks_V_`, the lower-case OS, `_`, the architecture token and the family's extension |
| Release.PlatformTagInjective | pre-commit-hook-implementation.py:28-46 | distinct platforms have distinct `{os}_{tok}{ext}` tags |
| Release.ReleaseUrlInjective | pre-commit-hook-implementation.py:24-46 | within one release, distinct platforms download from distinct URLs |
| Release.LookupInjective | pre-commit-hook-implementation.py:26-52 | two supported pairs with the same URL are the same pair |
| Release.ReleaseUrlExtension | pre-commit-hook-implementation.py:28-46 | a URL ends in ".zip" exactly for Windows and in ".tar.gz" exactly for the other families |
| HookScript.ResolveUrl | pre-commit-hook-implementation.py:24-52 | the literal `if` chain of `install_gitleaks`; its contract is carried by `HookScript.ResolveUrlIsLookup`: it equals the reference table on every input |
| HookScript.BranchIsReleaseUrl | pre-commit-hook-implementation.py:26-46 | each branch of the literal chain builds the reference URL of its platform |
| HookScript.ResolveUrlIsLookup | pre-commit-hook-implementation.py:24-52 | the literal chain equals the reference table on every input: same URLs, same failures |
| HookScript.ResolveSucceedsIffSupported | pre-commit-hook-implementation.py:26-52 | the chain resolves exactly the six supported pairs |
| HookScript.ResolveUrlShape | pre-commit-hook-implementation.py:24-46 | every URL the chain resolves has the fixed shape |
| HookScript.ResolveUrlInjective | pre-commit-hook-implementation.py:26-52 | the chain never gives two supported pairs the same URL |
| HookScript.ResolvedExtension | pre-commit-hook-implementation.py:28-46 | a resolved URL ends in ".zip" exactly when the OS name is "Windows", and in ".tar.gz" exactly when it is not |
| HookScript.ResolvedFormatAgrees | pre-commit-hook-implementation.py:59-70 | the extraction branch, chosen by its own comparison with "Windows", expects the format the resolved URL names |
| HookScript.LinuxExample | pre-commit-hook-implementation.py:26-28 | Linux on x86_64 fetches `{base}/gitleaks_{V}_linux_x64.tar.gz`, the reference table's URL for that pair |
| HookScript.WindowsExample | pre-commit-hook-implementation.py:42-44 | Windows on arm64 fetches `{base}/gitleaks_{V}_windows_arm64.zip`, the reference table's URL for that pair, and unpacks it as zip |
| HookScript.RiscvRejected | pre-commit-hook-implementation.py:26-52 | no OS accepts the machine name "riscv64" |
| HookScript.Install | pre-commit-hook-implementation.py:22-82 | `install_gitleaks(os_type, os_architecture, destination_dir)`; its contracts are carried by `HookScript.InstallUnsupportedStopsEarly`, `HookScript.InstallSupportedDownloads` and `HookScript.InstallConfig` |
| HookScript.InstallUnsupportedStopsEarly | pre-commit-hook-implementation.py:22-57 | an unsupported pair exits with status 1 before any step: nothing downloaded, configuration untouched |
| HookScript.InstallSupportedDownloads | pre-commit-hook-implementation.py:22-82 | once the URL resolves, it is the reference table's URL and is downloaded exactly once, to the temporary name of the format the URL names; status 0 exactly when none of curl, the unpacking, `os.remove`, `os.chmod` and the launch of `./gitleaks` raises |
| HookScript.InstallConfig | pre-commit-hook-implementation.py:22-82 | after an install the configuration is the enable-flag rule applied once on success, and untouched otherwise |
| HookScript.DetectAndInstall | pre-commit-hook-implementation.py:111-142 | detection followed by `install_gitleaks`, the path the install block of `main` is meant to take; its contract is carried by `HookScript.DetectAndInstallAborts` and `HookScript.InstallBlockInstalls` |
| HookScript.DetectAndResolve | pre-commit-hook-implementation.py:111-112 | detection followed by the URL chain of lines 24-52; its contracts are carried by `HookScript.DetectedOsNeverUnsupported` and `WindowsScript.ResolveAgreesWithHookScript` |
| HookScript.DetectedOsNeverUnsupported | pre-commit-hook-implementation.py:111-112 | when the OS name comes from get_os_type, the table's "Operational system not supported" branch is unreachable |
| HookScript.DetectAndInstallAborts | pre-commit-hook-implementation.py:111-142 | an install run started from detection never ends with the OS-not-supported failure |
| HookScript.CloneHooks | pre-commit-hook-implementation.py:118-131 | the clone creates the `gitleaks-hooks` directory (`devsecops_dir`) and leaves no `.git` inside it; a failing clone raises |
| HookScript.InstallBlockAsWritten | pre-commit-hook-implementation.py:111-142 | the install block of `main` as written: detect, clone, `os.makedirs` without `exist_ok`, install; its contract is carried by `HookScript.InstallBlockAsWrittenNeverInstalls` |
| HookScript.InstallBlockAsWrittenNeverInstalls | pre-commit-hook-implementation.py:111-142 | as written, the install block never takes an install step: it always exits with status 1 and the configuration untouched, and after a successful clone it always fails because the directory exists |
| HookScript.InstallBlock | my_pre_commit_with_windows.py:128-131 | the install block with the directory created only when missing; its contract is carried by `HookScript.InstallBlockInstalls` |
| HookScript.InstallBlockInstalls | my_pre_commit_with_windows.py:128-131 | with the directory created only when missing, a successful clone always leads to detection followed by `install_gitleaks` on the `gitleaks-hooks` directory (`devsecops_dir`); a failed clone takes no step |
| Installer.ExtractionFormat | pre-commit-hook-implementation.py:59-70 | the choice of archive branch; its contract is carried by `Installer.ExtractionNames` |
| Installer.ExtractionNames | pre-commit-hook-implementation.py:59-70 | the zip branch is taken exactly for "Windows"; the temporary names are "gitleaks.zip" and "gitleaks.tar.gz" |
| Installer.AfterResolve | pre-commit-hook-implementation.py:54-82 | the part of `install_gitleaks` after the URL is known; its contracts are carried by the `Installer.AfterResolve*` lemmas below |
| Installer.AfterResolveAborts | pre-commit-hook-implementation.py:61-74 | a run after resolution stops only with the failure of one of its own actions: curl, the unpacking, the removal of the archive, chmod on "gitleaks" or the launch of "./gitleaks" |
| Installer.AfterResolveStatus | pre-commit-hook-implementation.py:59-82 | the run exits with status 0 exactly when none of its actions raises (curl, unpacking, `os.remove`, `os.chmod`, launching `./gitleaks`), and with 1 otherwise |
| Installer.AfterResolveDownloadsOnce | pre-commit-hook-implementation.py:59-67 | every run after resolution downloads exactly once, the resolved URL to the format's temporary name |
| Installer.AfterResolveUnpacksOnce | pre-commit-hook-implementation.py:59-70 | unless the download raises, the archive is unpacked once in the OS's format; unless the download or the unpacking raises, exactly that archive is deleted once |
| Installer.AfterResolveRunsExecutable | pre-commit-hook-implementation.py:59-82 | unless an earlier action raises, "gitleaks" is set to mode 0o755 once; unless that raises, the binary is run once, immediately after; a run where nothing raises ends back in the original directory |
| Installer.AfterResolveDirectories | pre-commit-hook-implementation.py:56-82 | every run enters the destination directory; only a run where nothing raises changes back to the original one |
| Installer.AfterResolveConfig | pre-commit-hook-implementation.py:59-82 | the configuration ends as the enable-flag rule leaves it when nothing raises and unchanged otherwise; there is one write exactly when nothing raises and the flag was unset |
| Text.TrimStart | pre-commit-hook-implementation.py:79 | the result is a suffix of the input, the removed prefix is all whitespace, and the result does not start with whitespace |
| Text.TrimEnd | pre-commit-hook-implementation.py:79 | the result is a prefix of the input, the removed suffix is all whitespace, and the result does not end with whitespace |
| Text.Strip | pre-commit-hook-implementation.py:79 | `strip()` on the command's output; its contracts are carried by `Text.TrimStart`, `Text.TrimEnd` and `Text.StripEmptyIffAllSpace` |
| Text.StripEmptyIffAllSpace | pre-commit-hook-implementation.py:79 | stripping gives the empty string exactly when the input is all ASCII whitespace |
| GitConfig.FlagUnset | pre-commit-hook-implementation.py:78-79 | the installer's "not set" test; its contract is carried by `GitConfig.FlagUnsetIffBlank` |
| GitConfig.FlagUnsetIffBlank | pre-commit-hook-implementation.py:78-79 | the stripped-output test says "unset" exactly when the key is absent or its value is all whitespace; "false" counts as set |
| GitConfig.EnableIfUnset | pre-commit-hook-implementation.py:78-80 | after the rule the flag key is always present |
| GitConfig.EnableIfUnsetChanges | pre-commit-hook-implementation.py:78-80 | writes "true" when the installer's test says unset, keeps any value that reads back as set, and changes or adds no other key |
| GitConfig.EnableIfUnsetSets | pre-commit-hook-implementation.py:78-80 | after the rule the flag reads back as set |
| GitConfig.EnableIfUnsetIdempotent | pre-commit-hook-implementation.py:78-80 | applying the rule twice is the same as applying it once |
| WindowsScript.UrlTable | my_pre_commit_with_windows.py:33-59 | this script's literal `if` chain; its contract is carried by `WindowsScript.TablesAgree` |
| WindowsScript.TablesAgree | my_pre_commit_with_windows.py:33-59 | this script's URL chain equals the other script's on every input |
| WindowsScript.ResolveUrl | my_pre_commit_with_windows.py:24-59 | detection followed by the chain; its contracts are carried by `WindowsScript.ResolveAgreesWithHookScript` and `WindowsScript.ResolveSucceedsIffSupported` |
| WindowsScript.ResolveAgreesWithHookScript | my_pre_commit_with_windows.py:24-59 | detecting inside `install_gitleaks` resolves the same URL, or fails for the same reason, as detecting first and passing the names in |
| WindowsScript.Install | my_pre_commit_with_windows.py:22-89 | `install_gitleaks(destination_dir)`; its contracts are carried by `WindowsScript.InstallAgreesWithHookScript`, `WindowsScript.InstallUnsupportedStopsEarly` and `WindowsScript.InstallSupportedDownloads` |
| WindowsScript.InstallAgreesWithHookScript | my_pre_commit_with_windows.py:22-89 | this script's `install_gitleaks` takes the same steps, exits with the same status and leaves the same configuration as the other script's detection followed by its `install_gitleaks` |
| WindowsScript.ResolveSucceedsIffSupported | my_pre_commit_with_windows.py:27-59 | resolution succeeds exactly when the OS name is recognised and the normalised pair is one of the six supported pairs |
| WindowsScript.ResolvedFormatAgrees | my_pre_commit_with_windows.py:66-77 | the URL ends in ".zip" exactly for Windows, and the extraction branch expects the format the URL names |
| WindowsScript.InstallUnsupportedStopsEarly | my_pre_commit_with_windows.py:27-59 | an unrecognised OS or unsupported architecture exits with status 1 before anything is downloaded, configuration untouched |
| WindowsScript.InstallSupportedDownloads | my_pre_commit_with_windows.py:62-89 | a resolved URL is downloaded once, to the temporary name of its format; the configuration ends as the flag rule leaves it when nothing raises |

## Findings

| source | as written | input that shows it | evidently intended | confidence | as-written member | corrected member |
|---|---|---|---|---|---|---|
| pre-commit-hook-implementation.py:124-142 | `git clone` creates the `gitleaks-hooks` directory (`devsecops_dir`), then `os.makedirs(devsecops_dir)` without `exist_ok` is called on it | any run of the install block whose OS name get_os_type accepts and whose clone succeeds: `os.makedirs` raises `FileExistsError` and `install_gitleaks` is never called | create the directory only when it is missing, as my_pre_commit_with_windows.py:128-129 does, then call `install_gitleaks` | high; not executed | HookScript.InstallBlockAsWrittenNeverInstalls | HookScript.InstallBlockInstalls |

## Left out

- Running curl, git and `./gitleaks`, unpacking with `tarfile`/`zipfile`, and the `os.chdir`, `os.remove` and `os.chmod` calls are not modelled. Each external command or file-system call is a `Step` in a trace. Which of the install actions raises is the input `Host.fault`: curl's `check=True`, the archive readers, `os.remove`, `os.chmod` and the launch of `./gitleaks`.
- The `git config` subprocesses are assumed to start and to succeed. They are run without `check=True`, so a non-zero exit never changes the status, as in the model.
- Installer.AfterResolveConfig: assumes the `git config --bool devsecops.gitleaks.enabled true` write (pre-commit-hook-implementation.py:80, my_pre_commit_with_windows.py:87) takes effect. If that write exits non-zero, for example on a held `config.lock`, the key stays unwritten while the run still ends with status 0; the model does not cover this.
- `os.getcwd()`, `os.chdir(destination_dir)` and the final `os.chdir(current_dir)` (pre-commit-hook-implementation.py:82, my_pre_commit_with_windows.py:89) are assumed to succeed. A missing destination directory, which would make `os.chdir` raise before the download, is not modelled.
- The file system is not modelled: the downloaded and unpacked files and the file mode are not tracked. `os.chdir` is a step, and `os.getcwd()` is the input `Host.cwd`. When an action raises after `os.chdir(destination_dir)`, the process ends inside the destination directory; `Installer.AfterResolveDirectories` states this.
- The printed progress messages and the version text the binary reports are not modelled. Only the fact that the binary is queried is kept.
- `platform.system()` and `platform.machine()` are inputs. get_os_type calls `platform.system()` up to three times (pre-commit-hook-implementation.py:13, 16 and 19; on a rejected name all three run, and the third supplies the name `Outcomes.OsRejected` carries). The model assumes every call returns the same name.
- git's own reading of values is not modelled. `git config --get` is taken to print exactly the stored value and a newline. git's normalisation of `--bool` values, and its failure on a repository-less directory, are not modelled.
- WindowsScript.InstallAgreesWithHookScript: compares the two `install_gitleaks` functions only. The two `main` functions order their work differently, which is not modelled: the first script detects the OS at pre-commit-hook-implementation.py:111, before its clean-up, clone and hook copy at lines 118-139; the second detects inside `install_gitleaks` (my_pre_commit_with_windows.py:27), after those steps at lines 108-126.
- HookScript.DetectAndInstall: models the path the first script's install block is meant to take. As written, that block stops at `os.makedirs` on pre-commit-hook-implementation.py:141 and never reaches it; see "## Findings".
- Of the install block of `main`, the clone and `os.makedirs` are modelled over a set of directories (`HookScript.CloneHooks`, `HookScript.MakeDirs`). The set holds directory paths only: `shutil.rmtree` removes just the path itself from it, and the contents below the `gitleaks-hooks` directory (`devsecops_dir`) are not tracked. `HookScript.MakeDirs` adds only the path, which is what `os.makedirs` does when the parent exists. The `shutil.rmtree` calls use `ignore_errors=True` and are folded into the clone. Copying and marking the hook file executable (lines 133-139) are not traced.
- The rest of both `main` functions is not modelled: the `git rev-parse` repository check and running `gitleaks protect`. The second script's clean-up, clone, hook copy and `os.makedirs` (my_pre_commit_with_windows.py:107-129) are not modelled separately; `HookScript.InstallBlock` follows them except that it detects the OS before the clone.
- The gate at pre-commit-hook-implementation.py:86-87 is not modelled. It tests a `CompletedProcess` object, which is always true, so the warning branch can never run. The existence check at line 107 concerns the file system, which is left out.
